/** The player panel: the emoji filter applied when a player is added, the leader shown
    with a crown, and the two buttons that add a player and clear one's own name. */
module Roster {
  import opened Common
  import opened Records
  import opened Text
  import opened Storage
  import opened Mutations
  import PlayerMerge

  /** The crown shown next to the leader. */
  const Crown: char := '\U{1F451}'
  /** What a crown in a chosen emoji is replaced with. */
  const Ribbon: char := '\U{1F380}'
  /** What a player with no emoji is shown with. */
  const Smiley: char := '\U{1F60A}'

  // ---------------------------------------------------------------- sanitizeEmoji

  /** `sanitizeEmoji(e)`: an emoji that contains the crown becomes the ribbon, so nobody
      can pick the leader's mark for themselves. */
  function SanitizeEmoji(e: string): (r: string)
    ensures Crown !in r
    ensures r == "" <==> e == ""
    ensures Crown !in e ==> r == e
    ensures Crown in e ==> r == [Ribbon]
  {
    if e == "" then "" else if Crown in e then [Ribbon] else e
  }

  /** Sanitising twice is sanitising once. */
  lemma SanitizeEmojiIdempotent(e: string)
    ensures SanitizeEmoji(SanitizeEmoji(e)) == SanitizeEmoji(e)
  {
  }

  // ---------------------------------------------------------------- leader

  /** `players.reduce((a, b) => a.highestTotal >= b.highestTotal ? a : b)`, as the position
      of the record it returns: a later record replaces the one kept only when its best
      score is strictly higher. -1 for no players. */
  function LeaderIndex(ps: seq<Player>): (i: int)
    ensures -1 <= i < |ps|
    ensures i == -1 <==> |ps| == 0
    ensures i >= 0 ==> forall j :: 0 <= j < |ps| ==> ps[j].highestTotal <= ps[i].highestTotal
    ensures i >= 0 ==> forall j :: 0 <= j < i ==> ps[j].highestTotal < ps[i].highestTotal
  {
    if |ps| == 0 then -1
    else
      var a := LeaderIndex(ps[..|ps| - 1]);
      if a >= 0 && ps[a].highestTotal >= ps[|ps| - 1].highestTotal then a else |ps| - 1
  }

  /** The leader, or `null` for an empty roster. */
  function Leader(ps: seq<Player>): (l: Option<Player>)
    ensures l.None? <==> |ps| == 0
    ensures l.Some? ==> l.value in ps
  {
    var i := LeaderIndex(ps);
    if i == -1 then None else Some(ps[i])
  }

  /** The leader is the first record holding the highest best score: any record with a
      maximal score and only lower scores before it is the one chosen. */
  lemma {:induction false} LeaderIsFirstMaximum(ps: seq<Player>, k: int)
    requires 0 <= k < |ps|
    requires forall j :: 0 <= j < |ps| ==> ps[j].highestTotal <= ps[k].highestTotal
    requires forall j :: 0 <= j < k ==> ps[j].highestTotal < ps[k].highestTotal
    ensures Leader(ps) == Some(ps[k])
  {
    var i := LeaderIndex(ps);
    assert ps[i].highestTotal <= ps[k].highestTotal && ps[k].highestTotal <= ps[i].highestTotal;
    assert !(i < k) && !(k < i);
  }

  // ---------------------------------------------------------------- crown

  /** `isLeader`: the record carries the leader's id and the leader has scored. */
  predicate ShowsCrown(ps: seq<Player>, p: Player)
  {
    var l := Leader(ps);
    l.Some? && l.value.id == p.id && l.value.highestTotal > 0
  }

  /** The mark shown next to a player: the crown for the leader, else the chosen emoji,
      else the smiley. */
  function Glyph(ps: seq<Player>, p: Player): (g: string)
    ensures g != ""
    ensures ShowsCrown(ps, p) ==> g == [Crown]
    ensures !ShowsCrown(ps, p) ==> (Crown in g <==> Crown in p.emoji)
    ensures !ShowsCrown(ps, p) && p.emoji != "" ==> g == p.emoji
    ensures !ShowsCrown(ps, p) && p.emoji == "" ==> g == [Smiley]
  {
    if ShowsCrown(ps, p) then [Crown] else if p.emoji != "" then p.emoji else [Smiley]
  }

  /** In a roster without duplicate ids the crown marks at most one record, that record
      holds the highest best score, and nobody wears it before anyone has scored. */
  lemma {:induction false} CrownIsUniqueAndDeserved(ps: seq<Player>, p: Player, q: Player)
    requires UniquePlayerIds(ps) && p in ps && q in ps
    ensures ShowsCrown(ps, p) && ShowsCrown(ps, q) ==> p == q
    ensures ShowsCrown(ps, p) ==> p.highestTotal > 0 && forall x :: x in ps ==> x.highestTotal <= p.highestTotal
    ensures (forall x :: x in ps ==> x.highestTotal <= 0) ==> !ShowsCrown(ps, p)
  {
    if ShowsCrown(ps, p) {
      var l := Leader(ps).value;
      SameIdSameRecord(ps, p, l);
      if ShowsCrown(ps, q) {
        SameIdSameRecord(ps, q, l);
      }
    }
  }

  /** Two members of a duplicate-free roster with the same id are the same record. */
  lemma {:induction false} SameIdSameRecord(ps: seq<Player>, p: Player, q: Player)
    requires UniquePlayerIds(ps) && p in ps && q in ps && p.id == q.id
    ensures p == q
  {
    var i :| 0 <= i < |ps| && ps[i] == p;
    var j :| 0 <= j < |ps| && ps[j] == q;
    assert !(i < j) && !(j < i);
  }

  // ---------------------------------------------------------------- onAdd

  /** `onAdd()`: a blank name adds nothing; otherwise the trimmed name and the trimmed,
      sanitised emoji are added. The added record, if any, is returned. */
  function OnAdd(s: Store, sess: Session, name: string, emoji: string, newId: string, now: int): (r: Done<Option<Player>>)
    ensures Trim(name) == "" ==> r == Done(s, [], None)
    ensures Trim(name) != "" ==>
      var a := AddPlayer(s, sess, Trim(name), SanitizeEmoji(Trim(emoji)), newId, now);
      r == Done(a.store, a.effects, Some(a.value))
    ensures r.value.Some? ==> r.value.value.name != "" && Crown !in r.value.value.emoji
  {
    var trimmed := Trim(name);
    if trimmed == "" then Done(s, [], None)
    else
      var a := AddPlayer(s, sess, trimmed, SanitizeEmoji(Trim(emoji)), newId, now);
      Done(a.store, a.effects, Some(a.value))
  }

  /** A player added through the panel shows the crown only when it is the leader: its
      own emoji can never imitate it. */
  lemma AddedPlayerCannotFakeCrown(s: Store, sess: Session, name: string, emoji: string, newId: string, now: int,
                                   ps: seq<Player>)
    requires OnAdd(s, sess, name, emoji, newId, now).value.Some?
    ensures var p := OnAdd(s, sess, name, emoji, newId, now).value.value;
      Crown in Glyph(ps, p) <==> ShowsCrown(ps, p)
  {
  }

  /** A padded name is stored without its padding, so the name-based removals find it
      under its plain spelling. */
  lemma {:induction false} OnAddStoresTrimmedName(s: Store, sess: Session, name: string, emoji: string, newId: string, now: int)
    requires Trim(name) != ""
    ensures var r := OnAdd(s, sess, name, emoji, newId, now);
      && r.value.Some?
      && r.value.value.name == Trim(name)
      && Trim(r.value.value.name) == r.value.value.name
      && ReadPlayers(r.store, ActivePlayersKey(sess)) == ReadPlayers(s, ActivePlayersKey(sess)) + [r.value.value]
  {
    TrimIdempotent(name);
  }

  // ---------------------------------------------------------------- clear your name

  /** What the "Clear Your Name" button tells the user. */
  datatype Notice = AskForName | NoMatch | Removed

  /** The "Clear Your Name" button: a blank name only asks for one; otherwise this
      device's records matching the trimmed name (and emoji, if given) are removed and the
      user is told whether any were. */
  function ClearYourName(s: Store, sess: Session, name: string, emoji: string): (r: Done<Notice>)
    ensures Trim(name) == "" ==> r == Done(s, [], AskForName)
    ensures Trim(name) != "" ==>
      var d := RemovePlayerByNameEmoji(s, sess, Trim(name), Trim(emoji));
      && r.store == d.store && r.effects == d.effects
      && (r.value == Removed <==> d.value > 0)
      && (r.value == NoMatch <==> d.value == 0)
  {
    var target := Trim(name);
    if target == "" then Done(s, [], AskForName)
    else
      var d := RemovePlayerByNameEmoji(s, sess, target, Trim(emoji));
      Done(d.store, d.effects, if d.value == 0 then NoMatch else Removed)
  }

  /** The button removes exactly this device's records that match, and says "Removed"
      exactly when one of them was there. */
  lemma {:induction false} ClearYourNameReportsTruthfully(s: Store, sess: Session, name: string, emoji: string)
    requires Trim(name) != ""
    ensures var before := ReadPlayers(s, ActivePlayersKey(sess));
      var r := ClearYourName(s, sess, name, emoji);
      && (forall p :: p in ReadPlayers(r.store, ActivePlayersKey(sess)) <==>
            p in before && !OwnedMatch(p, name, emoji, sess.deviceId))
      && (r.value == Removed <==> exists i :: 0 <= i < |before| && OwnedMatch(before[i], name, emoji, sess.deviceId))
  {
    var before := ReadPlayers(s, ActivePlayersKey(sess));
    TrimIdempotent(name);
    TrimIdempotent(emoji);
    NormalizeNameIdempotentTrim(name);
    assert forall p :: OwnedMatch(p, Trim(name), Trim(emoji), sess.deviceId) == OwnedMatch(p, name, emoji, sess.deviceId);
    RemoveByNameEmojiCount(s, sess, Trim(name), Trim(emoji));
  }

  /** A trimmed name normalises like the untrimmed one. */
  lemma {:induction false} NormalizeNameIdempotentTrim(name: string)
    ensures NormalizeName(Trim(name)) == NormalizeName(name)
  {
    TrimIdempotent(name);
  }
}
