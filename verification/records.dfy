/** The two entity kinds the party store replicates. A field the app reads with a
    `|| ''` or `|| 0` default is modelled with that default already applied. */
module Records {
  import opened Common

  /** A participant. `ownerDeviceId` is the device that created it; `""` stands for a
      record that carries no owner. */
  datatype Player = Player(
    id: string,
    name: string,
    emoji: string,
    highestTotal: int,
    highestDiceValues: seq<int>,
    createdAt: int,
    ownerDeviceId: string,
    partyCode: string)

  /** One throw of the dice. `playerId` is `None` when the roll was made with no current
      player (the app stores `null`). `roundNumber` is the app's current round, which
      can be fractional because the round limit comes from a numeric text input. */
  datatype Roll = Roll(
    id: string,
    playerId: Option<string>,
    playerName: string,
    diceCount: int,
    diceValues: seq<int>,
    total: int,
    sessionId: string,
    roundNumber: real,
    createdAt: int,
    partyCode: string)

  /** The fields of a roll the dice panel supplies; `saveRoll` adds id, time and party code. */
  datatype RollEntry = RollEntry(
    playerId: Option<string>,
    playerName: string,
    diceCount: int,
    diceValues: seq<int>,
    total: int,
    sessionId: string,
    roundNumber: real)

  /** The ids occurring in a player list. */
  function PlayerIds(ps: seq<Player>): (r: set<string>)
    ensures forall i :: 0 <= i < |ps| ==> ps[i].id in r
    ensures forall id :: id in r ==> exists i :: 0 <= i < |ps| && ps[i].id == id
  {
    set i | 0 <= i < |ps| :: ps[i].id
  }

  /** The ids occurring in a roll list. The same definition as `PlayerIds` for the other
      record type: the two datatypes share no common supertype, so each has its own. */
  function RollIds(rs: seq<Roll>): (r: set<string>)
    ensures forall i :: 0 <= i < |rs| ==> rs[i].id in r
    ensures forall id :: id in r ==> exists i :: 0 <= i < |rs| && rs[i].id == id
  {
    set i | 0 <= i < |rs| :: rs[i].id
  }

  /** The id of a one-element list. */
  lemma {:induction false} PlayerIdsOne(p: Player)
    ensures PlayerIds([p]) == {p.id}
  {
    assert [p][0] == p;
    forall id | id in PlayerIds([p])
      ensures id == p.id
    {
      var i :| 0 <= i < 1 && [p][i].id == id;
    }
  }

  /** The id of a one-element list. */
  lemma {:induction false} RollIdsOne(r: Roll)
    ensures RollIds([r]) == {r.id}
  {
    assert [r][0] == r;
    forall id | id in RollIds([r])
      ensures id == r.id
    {
      var i :| 0 <= i < 1 && [r][i].id == id;
    }
  }

  /** A list holds no ids exactly when it is empty. */
  lemma {:induction false} RollIdsEmpty(rs: seq<Roll>)
    ensures RollIds(rs) == {} <==> rs == []
  {
    if rs != [] {
      assert rs[0].id in RollIds(rs);
    }
  }

  /** The ids of a concatenation. */
  lemma {:induction false} PlayerIdsConcat(a: seq<Player>, b: seq<Player>)
    ensures PlayerIds(a + b) == PlayerIds(a) + PlayerIds(b)
  {
    var ab := a + b;
    forall id | id in PlayerIds(a + b)
      ensures id in PlayerIds(a) + PlayerIds(b)
    {
      var i :| 0 <= i < |ab| && ab[i].id == id;
      if i >= |a| {
        assert b[i - |a|].id == id;
      }
    }
    forall id | id in PlayerIds(b)
      ensures id in PlayerIds(a + b)
    {
      var i :| 0 <= i < |b| && b[i].id == id;
      assert ab[i + |a|].id == id;
    }
    forall id | id in PlayerIds(a)
      ensures id in PlayerIds(a + b)
    {
      var i :| 0 <= i < |a| && a[i].id == id;
      assert ab[i].id == id;
    }
  }

  /** The ids of a concatenation. */
  lemma {:induction false} RollIdsConcat(a: seq<Roll>, b: seq<Roll>)
    ensures RollIds(a + b) == RollIds(a) + RollIds(b)
  {
    var ab := a + b;
    forall id | id in RollIds(a + b)
      ensures id in RollIds(a) + RollIds(b)
    {
      var i :| 0 <= i < |ab| && ab[i].id == id;
      if i >= |a| {
        assert b[i - |a|].id == id;
      }
    }
    forall id | id in RollIds(b)
      ensures id in RollIds(a + b)
    {
      var i :| 0 <= i < |b| && b[i].id == id;
      assert ab[i + |a|].id == id;
    }
    forall id | id in RollIds(a)
      ensures id in RollIds(a + b)
    {
      var i :| 0 <= i < |a| && a[i].id == id;
      assert ab[i].id == id;
    }
  }

  /** No two players share an id. */
  predicate UniquePlayerIds(ps: seq<Player>)
  {
    forall i, j :: 0 <= i < j < |ps| ==> ps[i].id != ps[j].id
  }

  /** Lists with the same id at every position hold the same ids, and are duplicate-free
      together. */
  lemma {:induction false} SameIdsSameSets(a: seq<Player>, b: seq<Player>)
    requires |a| == |b| && forall i :: 0 <= i < |a| ==> a[i].id == b[i].id
    ensures PlayerIds(a) == PlayerIds(b)
    ensures UniquePlayerIds(a) ==> UniquePlayerIds(b)
  {
    forall x | x in PlayerIds(b)
      ensures x in PlayerIds(a)
    {
      var i :| 0 <= i < |b| && b[i].id == x;
      assert a[i].id == x;
    }
  }

  /** The tail of a duplicate-free list is duplicate-free and lacks the head's id. */
  lemma {:induction false} UniquePlayerTail(ps: seq<Player>)
    requires |ps| > 0 && UniquePlayerIds(ps)
    ensures UniquePlayerIds(ps[1..])
    ensures ps[0].id !in PlayerIds(ps[1..])
  {
    var t := ps[1..];
    forall i, j | 0 <= i < j < |t|
      ensures t[i].id != t[j].id
    {
      assert t[i] == ps[i + 1] && t[j] == ps[j + 1];
    }
    forall j | 0 <= j < |t|
      ensures t[j].id != ps[0].id
    {
      assert t[j] == ps[j + 1];
    }
  }

  /** No two rolls share an id. */
  predicate UniqueRollIds(rs: seq<Roll>)
  {
    forall i, j :: 0 <= i < j < |rs| ==> rs[i].id != rs[j].id
  }

  /** Newest first: `createdAt` never increases along the list. */
  predicate NewestFirst(rs: seq<Roll>)
  {
    forall i, j :: 0 <= i < j < |rs| ==> rs[i].createdAt >= rs[j].createdAt
  }

  /** Filtering a duplicate-free roster leaves it duplicate-free. */
  lemma {:induction false} FilterKeepsUniquePlayers(ps: seq<Player>, keep: Player -> bool)
    ensures UniquePlayerIds(ps) ==> UniquePlayerIds(Filter(ps, keep))
  {
    if UniquePlayerIds(ps) {
      FilterKeepsOrder(ps, keep, (a: Player, b: Player) => a.id != b.id);
    }
  }

  /** Filtering a roll log keeps it newest first and keeps its ids unique. */
  lemma {:induction false} FilterKeepsRollOrder(rs: seq<Roll>, keep: Roll -> bool)
    ensures NewestFirst(rs) ==> NewestFirst(Filter(rs, keep))
    ensures UniqueRollIds(rs) ==> UniqueRollIds(Filter(rs, keep))
  {
    if NewestFirst(rs) {
      FilterKeepsOrder(rs, keep, (a: Roll, b: Roll) => a.createdAt >= b.createdAt);
    }
    if UniqueRollIds(rs) {
      FilterKeepsOrder(rs, keep, (a: Roll, b: Roll) => a.id != b.id);
    }
  }
}
