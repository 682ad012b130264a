/** The device-local persistent store: a key/value medium holding one list per
    (entity kind, party code) namespace, plus the vocabulary of observable effects
    (writes, listener notifications, peer messages) that operations on it produce. */
module Storage {
  import opened Common
  import opened Records

  const PlayersPrefix: string := "bd_players"
  const RollsPrefix: string := "bd_rolls"
  /** The party code that means "this device only, no replication". */
  const LocalCode: string := "local"

  /** The two named channels of a party room. */
  datatype Channel = Sync | Update

  /** A protocol message, as decoded from the wire. `Response` fields are `None` when the
      sender's payload lacks them; `Unrecognised` is any other `type`. */
  datatype Message =
    | Request
    | Response(players: Option<seq<Player>>, rolls: Option<seq<Roll>>)
    | PlayersDelta(playerPayload: seq<Player>)
    | RollsDelta(rollPayload: seq<Roll>)
    | Unrecognised

  /** What an operation makes observable outside the store. */
  datatype Effect =
    | Wrote(key: string)          // durable write, followed by the same-tab storage event
    | NotifiedPlayers             // fan-out to the in-memory player listeners
    | NotifiedRolls               // fan-out to the in-memory roll listeners
    | Sent(channel: Channel, to: Option<string>, msg: Message)   // `to == None`: to every peer

  /** The durable medium: a players list and a rolls list per namespaced key. */
  datatype Store = Store(players: map<string, seq<Player>>, rolls: map<string, seq<Roll>>)

  /** The ambient state an operation reads: the persisted party code, this device's id,
      and whether a room's send functions exist (the app's `sendAction`). */
  datatype Session = Session(partyCode: string, deviceId: string, online: bool)

  /** The outcome of an operation: the new store, its effects in order, and its result. */
  datatype Done<T> = Done(store: Store, effects: seq<Effect>, value: T)

  /** `getPartyCode() || 'local'`. */
  function ActiveCode(partyCode: string): (c: string)
    ensures c != ""
    ensures partyCode != "" ==> c == partyCode
  {
    if partyCode == "" then LocalCode else partyCode
  }

  /** The namespace `nsPlayersKey`/`nsRollsKey` use: an explicit code verbatim (even an
      empty one), otherwise the active code. */
  function ResolveCode(code: Option<string>, partyCode: string): string
  {
    match code
    case Some(c) => c
    case None => ActiveCode(partyCode)
  }

  /** `nsPlayersKey(code)`. */
  function PlayersKey(code: Option<string>, partyCode: string): string
  {
    PlayersPrefix + ":" + ResolveCode(code, partyCode)
  }

  /** `nsRollsKey(code)`. */
  function RollsKey(code: Option<string>, partyCode: string): string
  {
    RollsPrefix + ":" + ResolveCode(code, partyCode)
  }

  /** The key an operation of the public API uses: always the active code. */
  function ActivePlayersKey(sess: Session): (k: string)
    ensures k == PlayersKey(None, sess.partyCode)
  {
    PlayersKey(Some(ActiveCode(sess.partyCode)), sess.partyCode)
  }

  /** The rolls counterpart of `ActivePlayersKey`. */
  function ActiveRollsKey(sess: Session): (k: string)
    ensures k == RollsKey(None, sess.partyCode)
  {
    RollsKey(Some(ActiveCode(sess.partyCode)), sess.partyCode)
  }

  /** With no code and no party code the namespace is `local`; with no code the party
      code is used. */
  lemma KeyDefaults(partyCode: string)
    ensures PlayersKey(None, "") == "bd_players:local"
    ensures RollsKey(None, "") == "bd_rolls:local"
    ensures partyCode != "" ==> PlayersKey(None, partyCode) == "bd_players:" + partyCode
    ensures partyCode != "" ==> RollsKey(None, partyCode) == "bd_rolls:" + partyCode
  {
  }

  /** Different namespaces never share a key, and a players key is never a rolls key,
      so the two typed maps together faithfully split one key/value medium. */
  lemma {:induction false} KeysSeparateNamespaces(a: Option<string>, pa: string, b: Option<string>, pb: string)
    ensures PlayersKey(a, pa) == PlayersKey(b, pb) <==> ResolveCode(a, pa) == ResolveCode(b, pb)
    ensures RollsKey(a, pa) == RollsKey(b, pb) <==> ResolveCode(a, pa) == ResolveCode(b, pb)
    ensures PlayersKey(a, pa) != RollsKey(b, pb)
  {
    var ca, cb := ResolveCode(a, pa), ResolveCode(b, pb);
    if PlayersKey(a, pa) == PlayersKey(b, pb) {
      assert ca == PlayersKey(a, pa)[11..] && cb == PlayersKey(b, pb)[11..];
    }
    if RollsKey(a, pa) == RollsKey(b, pb) {
      assert ca == RollsKey(a, pa)[9..] && cb == RollsKey(b, pb)[9..];
    }
    assert PlayersKey(a, pa)[3] == 'p' && RollsKey(b, pb)[3] == 'r';
  }

  /** `readLS(key, [])` for a players key: an absent key reads as the empty list. */
  function ReadPlayers(s: Store, key: string): seq<Player>
  {
    if key in s.players then s.players[key] else []
  }

  /** `readLS(key, [])` for a rolls key. */
  function ReadRolls(s: Store, key: string): seq<Roll>
  {
    if key in s.rolls then s.rolls[key] else []
  }

  /** `writeLS(key, list)` for a players key: replaces that one list and signals the write. */
  function WritePlayers(s: Store, key: string, list: seq<Player>): (r: Done<()>)
    ensures ReadPlayers(r.store, key) == list
    ensures forall k :: k != key ==> ReadPlayers(r.store, k) == ReadPlayers(s, k)
    ensures r.store.rolls == s.rolls
    ensures r.effects == [Wrote(key)]
  {
    Done(Store(s.players[key := list], s.rolls), [Wrote(key)], ())
  }

  /** `writeLS(key, list)` for a rolls key. */
  function WriteRolls(s: Store, key: string, list: seq<Roll>): (r: Done<()>)
    ensures ReadRolls(r.store, key) == list
    ensures forall k :: k != key ==> ReadRolls(r.store, k) == ReadRolls(s, k)
    ensures r.store.players == s.players
    ensures r.effects == [Wrote(key)]
  {
    Done(Store(s.players, s.rolls[key := list]), [Wrote(key)], ())
  }

  /** `getPlayersOnce(codeOverride)`. */
  function PlayersOnce(s: Store, codeOverride: Option<string>, partyCode: string): seq<Player>
  {
    ReadPlayers(s, PlayersKey(Some(ResolveCode(codeOverride, partyCode)), partyCode))
  }

  /** `getRollsOnce(codeOverride)`. */
  function RollsOnce(s: Store, codeOverride: Option<string>, partyCode: string): seq<Roll>
  {
    ReadRolls(s, RollsKey(Some(ResolveCode(codeOverride, partyCode)), partyCode))
  }

  /** Reading once with no override reads the active namespace; with an override it
      reads exactly that namespace, whatever the party code. */
  lemma OnceReadsNamespace(s: Store, codeOverride: Option<string>, partyCode: string)
    ensures codeOverride.None? ==> PlayersOnce(s, codeOverride, partyCode) == ReadPlayers(s, PlayersKey(None, partyCode))
    ensures codeOverride.Some? ==> PlayersOnce(s, codeOverride, partyCode) == ReadPlayers(s, PlayersKey(codeOverride, ""))
    ensures codeOverride.None? ==> RollsOnce(s, codeOverride, partyCode) == ReadRolls(s, RollsKey(None, partyCode))
    ensures codeOverride.Some? ==> RollsOnce(s, codeOverride, partyCode) == ReadRolls(s, RollsKey(codeOverride, ""))
  {
  }
}
