/** Replication between the devices of one party room. A room has two channels: `sync`,
    which carries whole-state requests and responses, and `update`, which carries deltas.
    Incoming state is folded into the local namespace of the room's code by the two
    merge reducers, and a change is written back and fanned out to the listeners. */
module Sync {
  import opened Common
  import opened Records
  import opened Storage
  import PlayerMerge
  import RollMerge
  import Mutations

  /** The store key of a room's players: `nsPlayersKey(code)` with an explicit code. */
  function RoomPlayersKey(code: string): string
  {
    PlayersKey(Some(code), "")
  }

  /** The store key of a room's rolls. */
  function RoomRollsKey(code: string): string
  {
    RollsKey(Some(code), "")
  }

  /** `mergePlayers(code, remoteList)`: when the reducer reports a change, the merged list
      is written and the player listeners are notified; otherwise nothing happens. */
  function MergePlayers(s: Store, code: string, remote: seq<Player>): (r: Done<()>)
    ensures var m := PlayerMerge.MergePlayerLists(ReadPlayers(s, RoomPlayersKey(code)), remote);
      && ReadPlayers(r.store, RoomPlayersKey(code)) == m.list
      && (r.effects == [] <==> !m.changed)
      && (m.changed ==> r.effects == [Wrote(RoomPlayersKey(code)), NotifiedPlayers])
      && (!m.changed ==> r.store == s)
    ensures forall k :: k != RoomPlayersKey(code) ==> ReadPlayers(r.store, k) == ReadPlayers(s, k)
    ensures r.store.rolls == s.rolls
  {
    var key := RoomPlayersKey(code);
    var m := PlayerMerge.MergePlayerLists(ReadPlayers(s, key), remote);
    if m.changed then
      var w := WritePlayers(s, key, m.list);
      Done(w.store, w.effects + [NotifiedPlayers], ())
    else Done(s, [], ())
  }

  /** `mergeRolls(code, remoteList)`: the rolls counterpart of `MergePlayers`. */
  function MergeRolls(s: Store, code: string, remote: seq<Roll>): (r: Done<()>)
    ensures var m := RollMerge.MergeRollLists(ReadRolls(s, RoomRollsKey(code)), remote);
      && ReadRolls(r.store, RoomRollsKey(code)) == m.list
      && (r.effects == [] <==> !m.changed)
      && (m.changed ==> r.effects == [Wrote(RoomRollsKey(code)), NotifiedRolls])
      && (!m.changed ==> r.store == s)
    ensures forall k :: k != RoomRollsKey(code) ==> ReadRolls(r.store, k) == ReadRolls(s, k)
    ensures r.store.players == s.players
  {
    var key := RoomRollsKey(code);
    var m := RollMerge.MergeRollLists(ReadRolls(s, key), remote);
    if m.changed then
      var w := WriteRolls(s, key, m.list);
      Done(w.store, w.effects + [NotifiedRolls], ())
    else Done(s, [], ())
  }

  /** The players half of `mergeData`: merges the list when one is present. */
  function MergeSomePlayers(s: Store, code: string, players: Option<seq<Player>>): (r: Done<()>)
    ensures players.None? ==> r == Done(s, [], ())
    ensures players.Some? ==>
      ReadPlayers(r.store, RoomPlayersKey(code))
        == PlayerMerge.MergePlayerLists(ReadPlayers(s, RoomPlayersKey(code)), players.value).list
    ensures forall k :: k != RoomPlayersKey(code) ==> ReadPlayers(r.store, k) == ReadPlayers(s, k)
    ensures r.store.rolls == s.rolls
    ensures forall e :: e in r.effects ==> !e.Sent?
  {
    if players.Some? then MergePlayers(s, code, players.value) else Done(s, [], ())
  }

  /** The rolls half of `mergeData`: merges the list when one is present. */
  function MergeSomeRolls(s: Store, code: string, rolls: Option<seq<Roll>>): (r: Done<()>)
    ensures rolls.None? ==> r == Done(s, [], ())
    ensures rolls.Some? ==>
      ReadRolls(r.store, RoomRollsKey(code))
        == RollMerge.MergeRollLists(ReadRolls(s, RoomRollsKey(code)), rolls.value).list
    ensures forall k :: k != RoomRollsKey(code) ==> ReadRolls(r.store, k) == ReadRolls(s, k)
    ensures r.store.players == s.players
    ensures forall e :: e in r.effects ==> !e.Sent?
  {
    if rolls.Some? then MergeRolls(s, code, rolls.value) else Done(s, [], ())
  }

  /** `mergeData(code, players, rolls)`: merges whichever parts are present, players first. */
  function MergeData(s: Store, code: string, players: Option<seq<Player>>, rolls: Option<seq<Roll>>): (r: Done<()>)
    ensures players.None? ==> ReadPlayers(r.store, RoomPlayersKey(code)) == ReadPlayers(s, RoomPlayersKey(code))
    ensures players.Some? ==>
      ReadPlayers(r.store, RoomPlayersKey(code))
        == PlayerMerge.MergePlayerLists(ReadPlayers(s, RoomPlayersKey(code)), players.value).list
    ensures rolls.None? ==> ReadRolls(r.store, RoomRollsKey(code)) == ReadRolls(s, RoomRollsKey(code))
    ensures rolls.Some? ==>
      ReadRolls(r.store, RoomRollsKey(code))
        == RollMerge.MergeRollLists(ReadRolls(s, RoomRollsKey(code)), rolls.value).list
    ensures forall k :: k != RoomPlayersKey(code) ==> ReadPlayers(r.store, k) == ReadPlayers(s, k)
    ensures forall k :: k != RoomRollsKey(code) ==> ReadRolls(r.store, k) == ReadRolls(s, k)
    ensures forall e :: e in r.effects ==> !e.Sent?
  {
    var p := MergeSomePlayers(s, code, players);
    var q := MergeSomeRolls(p.store, code, rolls);
    assert ReadRolls(p.store, RoomRollsKey(code)) == ReadRolls(s, RoomRollsKey(code));
    Done(q.store, p.effects + q.effects, ())
  }

  /** The handlers `initP2P` installs for the room `code`, applied to one message from the
      peer `from`: a request on `sync` is answered, to that peer alone, with this device's
      whole state for the room; a response on `sync` is merged; player and roll deltas on
      `update` are merged; anything else is ignored. */
  function HandleMessage(s: Store, code: string, channel: Channel, msg: Message, from: string): (r: Done<()>)
    ensures channel == Sync && msg.Request? ==>
      && r.store == s
      && r.effects == [Sent(Sync, Some(from), Response(Some(ReadPlayers(s, RoomPlayersKey(code))),
                                                        Some(ReadRolls(s, RoomRollsKey(code)))))]
    ensures channel == Sync && msg.Response? ==> r == MergeData(s, code, msg.players, msg.rolls)
    ensures channel == Update && msg.PlayersDelta? ==> r == MergePlayers(s, code, msg.playerPayload)
    ensures channel == Update && msg.RollsDelta? ==> r == MergeRolls(s, code, msg.rollPayload)
    ensures forall k :: k != RoomPlayersKey(code) ==> ReadPlayers(r.store, k) == ReadPlayers(s, k)
    ensures forall k :: k != RoomRollsKey(code) ==> ReadRolls(r.store, k) == ReadRolls(s, k)
    ensures forall e :: e in r.effects && e.Sent? ==> channel == Sync && msg.Request? && e.to == Some(from)
  {
    match (channel, msg)
    case (Sync, Request) =>
      var players := ReadPlayers(s, RoomPlayersKey(code));
      var rolls := ReadRolls(s, RoomRollsKey(code));
      Done(s, [Sent(Sync, Some(from), Response(Some(players), Some(rolls)))], ())
    case (Sync, Response(players, rolls)) => MergeData(s, code, players, rolls)
    case (Update, PlayersDelta(payload)) => MergePlayers(s, code, payload)
    case (Update, RollsDelta(payload)) => MergeRolls(s, code, payload)
    case _ => Done(s, [], ())
  }

  /** A message on the wrong channel, or of an unknown type, is ignored entirely. */
  lemma WrongChannelIgnored(s: Store, code: string, channel: Channel, msg: Message, from: string)
    requires msg.Unrecognised?
      || (channel == Update && (msg.Request? || msg.Response?))
      || (channel == Sync && (msg.PlayersDelta? || msg.RollsDelta?))
    ensures HandleMessage(s, code, channel, msg, from) == Done(s, [], ())
  {
  }

  /** A whole-state exchange: after device `b` merges the response of device `a` to its
      request, `b` holds every roll of `a` and, for every player id `a` knows, `a`'s record;
      players `a` does not know keep `b`'s record. */
  lemma {:induction false} ResponseBringsPeerState(a: Store, b: Store, code: string, peerA: string, peerB: string)
    requires UniquePlayerIds(ReadPlayers(a, RoomPlayersKey(code)))
    requires UniquePlayerIds(ReadPlayers(b, RoomPlayersKey(code)))
    ensures var reply := HandleMessage(a, code, Sync, Request, peerB).effects[0].msg;
      var after := HandleMessage(b, code, Sync, reply, peerA).store;
      var pa := ReadPlayers(a, RoomPlayersKey(code));
      && (forall id :: id in PlayerIds(pa) ==>
            PlayerMerge.Lookup(ReadPlayers(after, RoomPlayersKey(code)), id) == PlayerMerge.Lookup(pa, id))
      && (forall id :: id !in PlayerIds(pa) ==>
            PlayerMerge.Lookup(ReadPlayers(after, RoomPlayersKey(code)), id)
              == PlayerMerge.Lookup(ReadPlayers(b, RoomPlayersKey(code)), id))
      && RollIds(ReadRolls(after, RoomRollsKey(code)))
           == RollIds(ReadRolls(b, RoomRollsKey(code))) + RollIds(ReadRolls(a, RoomRollsKey(code)))
      && multiset(ReadRolls(b, RoomRollsKey(code))) <= multiset(ReadRolls(after, RoomRollsKey(code)))
  {
    var pa := ReadPlayers(a, RoomPlayersKey(code));
    var pb := ReadPlayers(b, RoomPlayersKey(code));
    PlayerMerge.MergePlayersResult(pb, pa);
    var merged := PlayerMerge.MergePlayerLists(pb, pa).list;
    forall id | id in PlayerIds(pa)
      ensures PlayerMerge.Lookup(merged, id) == PlayerMerge.Lookup(pa, id)
    {
      var k :| 0 <= k < |pa| && pa[k].id == id;
      PlayerMerge.LastWithIdUnique(pa, pa[k]);
      PlayerMerge.LookupUnique(pa, pa[k]);
    }
    RollMerge.MergeRollsAppendOnly(ReadRolls(b, RoomRollsKey(code)), ReadRolls(a, RoomRollsKey(code)));
  }

  /** Answering a request and merging one's own answer changes nothing. */
  lemma {:induction false} OwnStateIsNoop(s: Store, code: string, peer: string)
    requires UniquePlayerIds(ReadPlayers(s, RoomPlayersKey(code)))
    ensures var reply := HandleMessage(s, code, Sync, Request, peer).effects[0].msg;
      HandleMessage(s, code, Sync, reply, peer) == Done(s, [], ())
  {
    var ps := ReadPlayers(s, RoomPlayersKey(code));
    PlayerMerge.MergePlayersIdempotent(ps, ps);
    RollMerge.MergeRollsSubsetNoop(ReadRolls(s, RoomRollsKey(code)), ReadRolls(s, RoomRollsKey(code)));
  }

  /** A player added on one device reaches a peer through the announced delta: once the
      peer handles the message, it holds the new record under its id. */
  lemma {:induction false} AddedPlayerReachesPeer(s: Store, sess: Session, name: string, emoji: string, newId: string, now: int,
                               peer: Store, from: string)
    requires Mutations.Broadcasts(sess)
    requires UniquePlayerIds(ReadPlayers(peer, RoomPlayersKey(sess.partyCode)))
    ensures var added := Mutations.AddPlayer(s, sess, name, emoji, newId, now);
      && added.effects[1] == Sent(Update, None, PlayersDelta([added.value]))
      && PlayerMerge.Lookup(ReadPlayers(HandleMessage(peer, sess.partyCode, Update, added.effects[1].msg, from).store,
                                        RoomPlayersKey(sess.partyCode)), newId) == Some(added.value)
  {
    var added := Mutations.AddPlayer(s, sess, name, emoji, newId, now);
    var p := added.value;
    var code := sess.partyCode;
    assert added.effects[1] == Sent(Update, None, PlayersDelta([p]));
    var local := ReadPlayers(peer, RoomPlayersKey(code));
    assert ReadPlayers(HandleMessage(peer, code, Update, PlayersDelta([p]), from).store, RoomPlayersKey(code))
      == PlayerMerge.MergePlayerLists(local, [p]).list;
    PlayerIdsOne(p);
    PlayerMerge.MergePlayersResult(local, [p]);
    PlayerMerge.LastWithIdUnique([p], p);
  }

  /** A saved roll reaches a peer through the announced delta, unless the peer already
      holds a roll with that id. */
  lemma {:induction false} SavedRollReachesPeer(s: Store, sess: Session, entry: RollEntry, newId: string, now: int,
                             peer: Store, from: string)
    requires Mutations.Broadcasts(sess)
    requires newId !in RollIds(ReadRolls(peer, RoomRollsKey(sess.partyCode)))
    ensures var saved := Mutations.SaveRoll(s, sess, entry, newId, now);
      var roll := Mutations.StampRoll(entry, newId, now, sess.partyCode);
      && saved.effects[1] == Sent(Update, None, RollsDelta([roll]))
      && roll in ReadRolls(HandleMessage(peer, sess.partyCode, Update, saved.effects[1].msg, from).store,
                           RoomRollsKey(sess.partyCode))
  {
    var code := sess.partyCode;
    var saved := Mutations.SaveRoll(s, sess, entry, newId, now);
    var roll := Mutations.StampRoll(entry, newId, now, code);
    assert saved.effects[1] == Sent(Update, None, RollsDelta([roll]));
    var local := ReadRolls(peer, RoomRollsKey(code));
    assert ReadRolls(HandleMessage(peer, code, Update, RollsDelta([roll]), from).store, RoomRollsKey(code))
      == RollMerge.MergeRollLists(local, [roll]).list;
    assert RollMerge.FreshRolls(RollIds(local), [roll]) == [roll] by {
      assert [roll][1..] == [];
    }
    RollMerge.MergeRollsContents(local, [roll]);
    assert roll in multiset(RollMerge.MergeRollLists(local, [roll]).list);
  }

  /** Deletions do not replicate: rolls cleared on this device come back as soon as a
      peer that still holds them answers a sync request. */
  lemma {:induction false} ClearedRollsReturn(s: Store, sess: Session, peerRolls: seq<Roll>, from: string)
    requires sess.partyCode != ""
    ensures var cleared := Mutations.ClearRolls(s, sess).store;
      var after := HandleMessage(cleared, sess.partyCode, Sync, Response(None, Some(peerRolls)), from).store;
      RollIds(ReadRolls(after, RoomRollsKey(sess.partyCode))) == RollIds(peerRolls)
  {
    var code := sess.partyCode;
    var cleared := Mutations.ClearRolls(s, sess).store;
    assert ReadRolls(cleared, RoomRollsKey(code)) == [];
    assert ReadRolls(HandleMessage(cleared, code, Sync, Response(None, Some(peerRolls)), from).store, RoomRollsKey(code))
      == RollMerge.MergeRollLists([], peerRolls).list;
    RollIdsEmpty([]);
    RollMerge.MergeRollsAppendOnly([], peerRolls);
  }
}
