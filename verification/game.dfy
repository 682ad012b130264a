/** The game state the app derives from the stored roll log: per-player running totals,
    whose turn it is, the current round, and the winner once the round limit is reached.
    Nothing here is stored; the state is recomputed whenever players, rolls or the round
    limit change. */
module Game {
  import opened Common
  import opened Records

  // ---------------------------------------------------------------- round limit

  /** A JavaScript number as `Number(value)` yields it. */
  datatype JsNumber = NaN | PosInf | NegInf | Finite(value: real)

  /** `x || 1`: NaN and zero are falsy. */
  function OrOne(x: JsNumber): JsNumber
  {
    if x.NaN? || x == Finite(0.0) then Finite(1.0) else x
  }

  /** `Math.min(20, x)` for a number that is not NaN. */
  function Min20(x: JsNumber): JsNumber
  {
    match x
    case PosInf => Finite(20.0)
    case Finite(v) => if v < 20.0 then x else Finite(20.0)
    case _ => x
  }

  /** `Math.max(1, x)` for a number that is not NaN, as a real. */
  function Max1(x: JsNumber): real
  {
    match x
    case Finite(v) => if v > 1.0 then v else 1.0
    case _ => 1.0
  }

  /** `setRoundsClamped(n)`: the round limit chosen from a button or a numeric input. */
  function ClampRounds(n: JsNumber): (v: real)
    ensures 1.0 <= v <= 20.0
    ensures n.NaN? || n == Finite(0.0) || n.NegInf? ==> v == 1.0
    ensures n.PosInf? ==> v == 20.0
    ensures n.Finite? ==> (v == n.value <==> 1.0 <= n.value <= 20.0)
    ensures n.Finite? && n.value > 20.0 ==> v == 20.0
    ensures n.Finite? && n.value < 1.0 ==> v == 1.0
  {
    Max1(Min20(OrOne(n)))
  }

  /** Clamping is idempotent: a clamped limit fed back in comes out unchanged. */
  lemma ClampRoundsIdempotent(n: JsNumber)
    ensures ClampRounds(Finite(ClampRounds(n))) == ClampRounds(n)
  {
  }

  // ---------------------------------------------------------------- replay order

  /** `[...rolls].reverse()`: the stored log is newest first, the replay oldest first. */
  function Replay(rolls: seq<Roll>): (r: seq<Roll>)
    ensures |r| == |rolls|
    ensures forall i :: 0 <= i < |rolls| ==> r[i] == rolls[|rolls| - 1 - i]
  {
    if |rolls| == 0 then [] else Replay(rolls[1..]) + [rolls[0]]
  }

  /** The replay of the log without its newest roll is the replay minus its last step. */
  lemma ReplayStep(rolls: seq<Roll>)
    requires |rolls| > 0
    ensures Replay(rolls)[..|rolls| - 1] == Replay(rolls[1..])
    ensures Replay(rolls)[|rolls| - 1] == rolls[0]
  {
  }

  // ---------------------------------------------------------------- totals

  /** One own property of the totals object: its key and accumulated sum. */
  datatype Tally = Tally(key: string, sum: int)

  /** The property key a roll's player id becomes: `String(playerId)`. */
  function ObjectKey(pid: Option<string>): string
  {
    match pid
    case None => "null"
    case Some(id) => id
  }

  /** The keys of a totals object. */
  function Keys(t: seq<Tally>): (r: set<string>)
    ensures forall i :: 0 <= i < |t| ==> t[i].key in r
    ensures forall k :: k in r ==> exists i :: 0 <= i < |t| && t[i].key == k
  {
    set i | 0 <= i < |t| :: t[i].key
  }

  /** An object has each key once. */
  predicate UniqueKeys(t: seq<Tally>)
  {
    forall i, j :: 0 <= i < j < |t| ==> t[i].key != t[j].key
  }

  /** Where a key sits in an object, or -1 when it is absent. */
  function KeyIndex(t: seq<Tally>, key: string): (i: int)
    ensures -1 <= i < |t|
    ensures i == -1 ==> forall j :: 0 <= j < |t| ==> t[j].key != key
    ensures i >= 0 ==> t[i].key == key && forall j :: 0 <= j < i ==> t[j].key != key
  {
    if |t| == 0 then -1
    else if t[0].key == key then 0
    else
      var k := KeyIndex(t[1..], key);
      if k == -1 then -1 else k + 1
  }

  /** The first position holding a key is its index. */
  lemma {:induction false} KeyIndexAt(t: seq<Tally>, key: string, i: int)
    requires 0 <= i < |t| && t[i].key == key
    requires forall j :: 0 <= j < i ==> t[j].key != key
    ensures KeyIndex(t, key) == i
  {
    var k := KeyIndex(t, key);
    assert k != -1;
    assert !(k < i);
    assert !(i < k);
  }

  /** Objects with the same key at every position find every key at the same index. */
  lemma {:induction false} KeyIndexSameKeys(t: seq<Tally>, u: seq<Tally>, key: string)
    requires |t| == |u| && forall j :: 0 <= j < |t| ==> t[j].key == u[j].key
    ensures KeyIndex(t, key) == KeyIndex(u, key)
  {
    var i := KeyIndex(t, key);
    if i >= 0 {
      KeyIndexAt(u, key, i);
    } else {
      var k := KeyIndex(u, key);
      assert k == -1 by {
        assert forall j :: 0 <= j < |u| ==> u[j].key != key;
      }
    }
  }

  /** `totals[key] || 0`. */
  function SumAt(t: seq<Tally>, key: string): int
  {
    var i := KeyIndex(t, key);
    if i == -1 then 0 else t[i].sum
  }

  /** `totals[key] = (totals[key] || 0) + amount`: an existing property is updated in
      place, a new one is added after all existing ones. */
  function AddTo(t: seq<Tally>, key: string, amount: int): (r: seq<Tally>)
    ensures |r| >= |t| && forall j :: 0 <= j < |t| ==> r[j].key == t[j].key
    ensures key !in Keys(t) ==> r == t + [Tally(key, amount)]
    ensures key in Keys(t) ==> |r| == |t|
  {
    var i := KeyIndex(t, key);
    if i == -1 then t + [Tally(key, amount)] else t[i := Tally(key, t[i].sum + amount)]
  }

  /** Adding to an object adds the key if new and keeps keys unique. */
  lemma {:induction false} AddToKeys(t: seq<Tally>, key: string, amount: int)
    ensures Keys(AddTo(t, key, amount)) == Keys(t) + {key}
    ensures UniqueKeys(t) ==> UniqueKeys(AddTo(t, key, amount))
  {
    var r := AddTo(t, key, amount);
    var i := KeyIndex(t, key);
    if i >= 0 {
      assert r[i].key == key;
    } else {
      assert r[|t|].key == key;
    }
    forall k | k in Keys(r)
      ensures k in Keys(t) + {key}
    {
      var j :| 0 <= j < |r| && r[j].key == k;
      if j < |t| {
        assert t[j].key == k;
      }
    }
  }

  /** Adding changes the value read under that key by `amount` and no other value. */
  lemma {:induction false} AddToSums(t: seq<Tally>, key: string, amount: int, k: string)
    ensures SumAt(AddTo(t, key, amount), k) == SumAt(t, k) + (if k == key then amount else 0)
  {
    var r := AddTo(t, key, amount);
    var i := KeyIndex(t, key);
    if i == -1 {
      var m := KeyIndex(t, k);
      if m >= 0 {
        KeyIndexAt(r, k, m);
      } else if k == key {
        KeyIndexAt(r, k, |t|);
      } else {
        assert forall j :: 0 <= j < |r| ==> r[j].key != k by {
          assert forall j :: 0 <= j < |t| ==> r[j] == t[j];
        }
      }
    } else {
      KeyIndexSameKeys(t, r, k);
    }
  }

  /** The totals after replaying `order` left to right. */
  function Totals(order: seq<Roll>): (t: seq<Tally>)
    ensures UniqueKeys(t)
  {
    if |order| == 0 then []
    else
      var last := order[|order| - 1];
      var before := Totals(order[..|order| - 1]);
      AddToKeys(before, ObjectKey(last.playerId), last.total);
      AddTo(before, ObjectKey(last.playerId), last.total)
  }

  /** The keys that occur in a replay. */
  function KeysIn(order: seq<Roll>): (r: set<string>)
    ensures forall i :: 0 <= i < |order| ==> ObjectKey(order[i].playerId) in r
    ensures forall k :: k in r ==> exists i :: 0 <= i < |order| && ObjectKey(order[i].playerId) == k
  {
    set i | 0 <= i < |order| :: ObjectKey(order[i].playerId)
  }

  /** The sum of `total` over the rolls of a log whose player id becomes `key`. */
  function SumFor(rolls: seq<Roll>, key: string): int
  {
    if |rolls| == 0 then 0
    else (if ObjectKey(rolls[0].playerId) == key then rolls[0].total else 0) + SumFor(rolls[1..], key)
  }

  /** Each total is the sum of its player's roll totals, whatever the log order, and the
      totals object has exactly one key per player id seen in the log. */
  lemma {:induction false} TotalsAreSums(rolls: seq<Roll>)
    ensures var t := Totals(Replay(rolls));
      && Keys(t) == KeysIn(rolls)
      && forall k :: SumAt(t, k) == SumFor(rolls, k)
  {
    if |rolls| > 0 {
      ReplayStep(rolls);
      TotalsAreSums(rolls[1..]);
      var before := Totals(Replay(rolls[1..]));
      var key := ObjectKey(rolls[0].playerId);
      assert Totals(Replay(rolls)) == AddTo(before, key, rolls[0].total);
      AddToKeys(before, key, rolls[0].total);
      KeysInCons(rolls);
      forall k
        ensures SumAt(Totals(Replay(rolls)), k) == SumFor(rolls, k)
      {
        AddToSums(before, key, rolls[0].total, k);
      }
    }
  }

  /** The keys of a non-empty log: its newest roll's key and the rest. */
  lemma {:induction false} KeysInCons(rolls: seq<Roll>)
    requires |rolls| > 0
    ensures KeysIn(rolls) == {ObjectKey(rolls[0].playerId)} + KeysIn(rolls[1..])
  {
    forall k | k in KeysIn(rolls)
      ensures k in {ObjectKey(rolls[0].playerId)} + KeysIn(rolls[1..])
    {
      var i :| 0 <= i < |rolls| && ObjectKey(rolls[i].playerId) == k;
      if i > 0 {
        assert rolls[1..][i - 1] == rolls[i];
      }
    }
    forall k | k in KeysIn(rolls[1..])
      ensures k in KeysIn(rolls)
    {
      var i :| 0 <= i < |rolls[1..]| && ObjectKey(rolls[1..][i].playerId) == k;
      assert rolls[i + 1] == rolls[1..][i];
    }
  }

  /** The position in the replay where a key first occurs; the replay's length when the
      key never occurs. */
  function FirstPos(order: seq<Roll>, key: string): (p: nat)
    ensures p <= |order|
  {
    if |order| == 0 then 0
    else if ObjectKey(order[0].playerId) == key then 0
    else 1 + FirstPos(order[1..], key)
  }

  /** The first position holds the key, and no earlier position does. */
  lemma {:induction false} FirstPosSpec(order: seq<Roll>, key: string)
    ensures var p := FirstPos(order, key);
      && (p < |order| ==> ObjectKey(order[p].playerId) == key)
      && forall i :: 0 <= i < p ==> ObjectKey(order[i].playerId) != key
  {
    if |order| > 0 && ObjectKey(order[0].playerId) != key {
      FirstPosSpec(order[1..], key);
      forall i | 0 < i < FirstPos(order, key)
        ensures ObjectKey(order[i].playerId) != key
      {
        assert order[i] == order[1..][i - 1];
      }
    }
  }

  /** A position holding the key with no earlier occurrence is the first position (and the
      length, with no occurrence at all, is the answer for an absent key). */
  lemma {:induction false} FirstPosIs(order: seq<Roll>, key: string, p: nat)
    requires p <= |order|
    requires p < |order| ==> ObjectKey(order[p].playerId) == key
    requires forall i :: 0 <= i < p ==> ObjectKey(order[i].playerId) != key
    ensures FirstPos(order, key) == p
  {
    var q := FirstPos(order, key);
    FirstPosSpec(order, key);
    assert !(q < p);
    assert !(p < q);
  }

  /** A key occurs in a replay exactly when its first position lies inside it. */
  lemma {:induction false} FirstPosInside(order: seq<Roll>, key: string)
    ensures key in KeysIn(order) <==> FirstPos(order, key) < |order|
  {
    FirstPosSpec(order, key);
    if key in KeysIn(order) {
      var i :| 0 <= i < |order| && ObjectKey(order[i].playerId) == key;
      assert FirstPos(order, key) <= i;
    }
  }

  /** Extending a replay by one step: keys seen before keep their first position, the
      step's key if new first occurs at the step, and other keys stay absent. */
  lemma {:induction false} FirstPosSnoc(order: seq<Roll>, key: string)
    requires |order| > 0
    ensures var n := |order|;
      var p := FirstPos(order[..n - 1], key);
      FirstPos(order, key) == if p < n - 1 then p else if ObjectKey(order[n - 1].playerId) == key then n - 1 else n
  {
    var n := |order|;
    var prefix := order[..n - 1];
    var p := FirstPos(prefix, key);
    FirstPosSpec(prefix, key);
    assert forall i :: 0 <= i < n - 1 ==> prefix[i] == order[i];
    if p < n - 1 {
      FirstPosIs(order, key, p);
    } else if ObjectKey(order[n - 1].playerId) == key {
      FirstPosIs(order, key, n - 1);
    } else {
      FirstPosIs(order, key, n);
    }
  }

  /** The keys of a replay are those of all but its last step plus the last step's. */
  lemma {:induction false} KeysInSnoc(order: seq<Roll>)
    requires |order| > 0
    ensures KeysIn(order) == KeysIn(order[..|order| - 1]) + {ObjectKey(order[|order| - 1].playerId)}
  {
      var n := |order|;
      var prefix := order[..n - 1];
      var k := ObjectKey(order[n - 1].playerId);
      assert KeysIn(order) == KeysIn(prefix) + {k} by {
        forall x | x in KeysIn(order)
          ensures x in KeysIn(prefix) + {k}
        {
          var i :| 0 <= i < n && ObjectKey(order[i].playerId) == x;
          if i < n - 1 {
            assert prefix[i] == order[i];
          }
        }
        forall x | x in KeysIn(prefix)
          ensures x in KeysIn(order)
        {
          var i :| 0 <= i < n - 1 && ObjectKey(prefix[i].playerId) == x;
          assert order[i] == prefix[i];
        }
      }
  }

  /** The totals object has exactly the keys of the replay. */
  lemma {:induction false} TotalsKeys(order: seq<Roll>)
    ensures Keys(Totals(order)) == KeysIn(order)
  {
    if |order| > 0 {
      var n := |order|;
      TotalsKeys(order[..n - 1]);
      KeysInSnoc(order);
      AddToKeys(Totals(order[..n - 1]), ObjectKey(order[n - 1].playerId), order[n - 1].total);
    }
  }

  /** The keys of `t` occur in `order`, and in the order of their first occurrence. */
  predicate InFirstAppearanceOrder(t: seq<Tally>, order: seq<Roll>)
  {
    forall i, j :: 0 <= i < j < |t| ==> FirstPos(order, t[i].key) < FirstPos(order, t[j].key) < |order|
  }

  /** Keys that already occur in all but the last step keep their first position. */
  lemma {:induction false} SnocKeepsPositions(order: seq<Roll>, t: seq<Tally>)
    requires |order| > 0
    requires forall i :: 0 <= i < |t| ==> FirstPos(order[..|order| - 1], t[i].key) < |order| - 1
    ensures forall i :: 0 <= i < |t| ==> FirstPos(order, t[i].key) == FirstPos(order[..|order| - 1], t[i].key)
  {
    forall i | 0 <= i < |t|
      ensures FirstPos(order, t[i].key) == FirstPos(order[..|order| - 1], t[i].key)
    {
      FirstPosSnoc(order, t[i].key);
    }
  }

  /** Every key of the totals first occurs somewhere inside the replay. */
  lemma {:induction false} TotalsKeysInside(order: seq<Roll>)
    ensures forall i :: 0 <= i < |Totals(order)| ==> FirstPos(order, Totals(order)[i].key) < |order|
  {
    var t := Totals(order);
    TotalsKeys(order);
    forall i | 0 <= i < |t|
      ensures FirstPos(order, t[i].key) < |order|
    {
      assert t[i].key in Keys(t);
      FirstPosInside(order, t[i].key);
    }
  }

  /** The totals object lists its keys in the order they first occur in the replay. */
  lemma {:induction false} TotalsFirstAppearance(order: seq<Roll>)
    ensures InFirstAppearanceOrder(Totals(order), order)
  {
    if |order| > 0 {
      var n := |order|;
      var prefix := order[..n - 1];
      var before := Totals(prefix);
      var k := ObjectKey(order[n - 1].playerId);
      var t := Totals(order);
      assert t == AddTo(before, k, order[n - 1].total);
      TotalsFirstAppearance(prefix);
      TotalsKeysInside(prefix);
      SnocKeepsPositions(order, before);
      if KeyIndex(before, k) >= 0 {
        assert |t| == |before|;
      } else {
        assert t == before + [Tally(k, order[n - 1].total)];
        assert k !in KeysIn(prefix) by {
          TotalsKeys(prefix);
        }
        FirstPosInside(prefix, k);
        FirstPosSnoc(order, k);
        assert FirstPos(order, t[|t| - 1].key) == n - 1;
      }
    }
  }

  // ---------------------------------------------------------------- winner

  /** `entries.reduce(...)` with a `null` start: the entry kept is replaced only by a later
      one with a strictly larger sum. Returns its position, or -1 for no entries. */
  function BestIndex(t: seq<Tally>): (i: int)
    ensures -1 <= i < |t|
    ensures i == -1 <==> |t| == 0
    ensures i >= 0 ==> forall j :: 0 <= j < |t| ==> t[j].sum <= t[i].sum
    ensures i >= 0 ==> forall j :: 0 <= j < i ==> t[j].sum < t[i].sum
  {
    if |t| == 0 then -1
    else
      var acc := BestIndex(t[..|t| - 1]);
      if acc == -1 || t[|t| - 1].sum > t[acc].sum then |t| - 1 else acc
  }

  /** The entry chosen is the only one that is maximal with nothing as large before it. */
  lemma {:induction false} BestIndexIsFirstMaximum(t: seq<Tally>, k: int)
    requires 0 <= k < |t|
    requires forall j :: 0 <= j < |t| ==> t[j].sum <= t[k].sum
    requires forall j :: 0 <= j < k ==> t[j].sum < t[k].sum
    ensures BestIndex(t) == k
  {
    var b := BestIndex(t);
    assert t[b].sum <= t[k].sum && t[k].sum <= t[b].sum;
  }

  /** `winner?.pid || null`: the chosen key, unless it is the empty string. */
  function WinnerOf(t: seq<Tally>): (w: Option<string>)
    ensures w.Some? ==> w.value != "" && w.value in Keys(t)
    ensures w.None? <==> |t| == 0 || t[BestIndex(t)].key == ""
  {
    var i := BestIndex(t);
    if i == -1 || t[i].key == "" then None else Some(t[i].key)
  }

  // ---------------------------------------------------------------- derivation

  /** The state the app shows: whose turn (`index` into the player list), the current
      round, the totals, and the winner's player id once the game is over. */
  datatype GameState = GameState(index: int, currentRound: real, totals: seq<Tally>, winner: Option<string>)

  /** `players.findIndex(p => p.id === pid)`: a roll with no player matches nobody. */
  function FindPlayer(ps: seq<Player>, pid: Option<string>): (i: int)
    ensures -1 <= i < |ps|
    ensures i >= 0 ==> pid == Some(ps[i].id) && forall j :: 0 <= j < i ==> Some(ps[j].id) != pid
    ensures i == -1 ==> forall j :: 0 <= j < |ps| ==> Some(ps[j].id) != pid
  {
    if |ps| == 0 then -1
    else if pid == Some(ps[0].id) then 0
    else
      var k := FindPlayer(ps[1..], pid);
      if k == -1 then -1 else k + 1
  }

  /** The index of the next player: after the last roller, wrapping to the first; the first
      when the last roller was not found. */
  function NextTurn(last: int, n: nat): (i: int)
    requires n > 0 && -1 <= last < n
    ensures 0 <= i < n
    ensures i == if last == -1 || last == n - 1 then 0 else last + 1
  {
    if last == -1 then 0 else (last + 1) % n
  }

  /** The replay effect: derives the game state from the players, the stored roll log
      (newest first) and the round limit. */
  function Derive(players: seq<Player>, rolls: seq<Roll>, rounds: real): (g: GameState)
    ensures |players| == 0 ==> g == GameState(0, 1.0, [], None)
    ensures |players| > 0 && |rolls| == 0 ==> g == GameState(0, 1.0, [], None)
    ensures |players| > 0 ==> 0 <= g.index < |players|
    ensures |players| > 0 ==> g.totals == Totals(Replay(rolls))
    ensures |players| > 0 && |rolls| > 0 ==>
      var last := FindPlayer(players, rolls[0].playerId);
      g.index == NextTurn(last, |players|)
    ensures |players| > 0 && |rolls| > 0 ==>
      var finished := |rolls| / |players|;
      && (finished as real >= rounds ==> g.currentRound == rounds && g.winner == WinnerOf(g.totals))
      && (finished as real < rounds ==> g.currentRound == (finished + 1) as real && g.winner == None)
  {
    if |players| == 0 then GameState(0, 1.0, [], None)
    else
      var order := Replay(rolls);
      var totals := Totals(order);
      if |order| == 0 then GameState(0, 1.0, totals, None)
      else
        var last := FindPlayer(players, order[|order| - 1].playerId);
        var index := NextTurn(last, |players|);
        var finished := |order| / |players|;
        if finished as real >= rounds then GameState(index, rounds, totals, WinnerOf(totals))
        else GameState(index, (finished + 1) as real, totals, None)
  }

  /** The turn passes to the player after the one who made the newest roll, wrapping
      around; if that player is gone (or the roll had none) the turn goes to the first. */
  lemma {:induction false} DeriveNextTurn(players: seq<Player>, rolls: seq<Roll>, rounds: real, i: int)
    requires UniquePlayerIds(players) && |rolls| > 0
    requires 0 <= i < |players|
    ensures rolls[0].playerId == Some(players[i].id) ==> Derive(players, rolls, rounds).index == (i + 1) % |players|
    ensures (forall j :: 0 <= j < |players| ==> rolls[0].playerId != Some(players[j].id))
              ==> Derive(players, rolls, rounds).index == 0
  {
    TurnAfter(players, rolls[0].playerId, i);
  }

  /** The seat after the one holding `pid`, wrapping around; the first seat when nobody
      holds it. */
  lemma {:induction false} TurnAfter(players: seq<Player>, pid: Option<string>, i: int)
    requires UniquePlayerIds(players) && 0 <= i < |players|
    ensures pid == Some(players[i].id) ==> NextTurn(FindPlayer(players, pid), |players|) == (i + 1) % |players|
    ensures (forall j :: 0 <= j < |players| ==> pid != Some(players[j].id))
              ==> NextTurn(FindPlayer(players, pid), |players|) == 0
  {
    var n := |players|;
    var k := FindPlayer(players, pid);
    if pid == Some(players[i].id) {
      assert k >= 0;
      assert k == i by {
        assert players[k].id == players[i].id;
        assert !(k < i) && !(i < k);
      }
      WrapNext(i, n);
    }
  }

  /** Stepping past the last seat wraps to the first. */
  lemma WrapNext(i: int, n: int)
    requires 0 <= i < n
    ensures (i + 1) % n == if i == n - 1 then 0 else i + 1
  {
    if i == n - 1 {
      assert (i + 1) % n == n % n == 0;
    }
  }

  /** With a whole-number limit the current round stays within `1..rounds`. */
  lemma {:induction false} DeriveRoundInRange(players: seq<Player>, rolls: seq<Roll>, limit: nat)
    requires limit >= 1
    ensures 1.0 <= Derive(players, rolls, limit as real).currentRound
    ensures |players| > 0 ==> Derive(players, rolls, limit as real).currentRound <= limit as real
  {
    if |players| > 0 && |rolls| > 0 {
      var finished := |rolls| / |players|;
      assert finished >= 0;
      if finished as real < limit as real {
        assert finished + 1 <= limit;
      }
    }
  }

  /** A fractional limit, which the numeric input lets through, shows a current round
      above the limit: one player, two rolls and a limit of 2.5 give round 3. */
  lemma FractionalLimitOvershoots(p: Player, a: Roll, b: Roll)
    ensures Derive([p], [a, b], 2.5).currentRound == 3.0
  {
  }

  /** Once the game is over the winner is the key the reduction picks (the first one, in
      order of first appearance in the replay, whose total is the maximum), unless that key
      is empty; its total is the sum of its rolls and no other player has more. */
  lemma {:induction false} DeriveWinner(players: seq<Player>, rolls: seq<Roll>, rounds: real)
    requires |players| > 0 && |rolls| > 0 && (|rolls| / |players|) as real >= rounds
    ensures var g := Derive(players, rolls, rounds);
      var b := BestIndex(g.totals);
      && 0 <= b < |g.totals|
      && (g.winner == None <==> g.totals[b].key == "")
      && (g.winner.Some? ==>
            && g.winner.value == g.totals[b].key
            && SumAt(g.totals, g.winner.value) == SumFor(rolls, g.winner.value)
            && forall k :: k in KeysIn(rolls) ==> SumFor(rolls, k) <= SumFor(rolls, g.winner.value))
  {
    TotalsAreSums(rolls);
    var g := Derive(players, rolls, rounds);
    var t := g.totals;
    assert ObjectKey(rolls[0].playerId) in Keys(t);
    var b := BestIndex(t);
    KeyIndexAt(t, t[b].key, b);
    forall k | k in KeysIn(rolls)
      ensures SumFor(rolls, k) <= SumFor(rolls, t[b].key)
    {
      var j :| 0 <= j < |t| && t[j].key == k;
      KeyIndexAt(t, k, j);
    }
  }
  /** The entry the reduction picks comes no later, in first-appearance order, than any
      other entry with the same sum. */
  lemma {:induction false} BestIndexEarliest(t: seq<Tally>, order: seq<Roll>, j: int)
    requires InFirstAppearanceOrder(t, order)
    requires 0 <= j < |t| && t[j].sum == t[BestIndex(t)].sum
    ensures FirstPos(order, t[BestIndex(t)].key) <= FirstPos(order, t[j].key)
  {
    var b := BestIndex(t);
    assert !(j < b);
    if b < j {
      assert FirstPos(order, t[b].key) < FirstPos(order, t[j].key);
    }
  }

  /** Among players tied at the top, the winner is the one whose first roll in the game
      came earliest. */
  lemma {:induction false} DeriveWinnerEarliestOfTies(players: seq<Player>, rolls: seq<Roll>, rounds: real, k: string)
    requires |players| > 0 && |rolls| > 0 && (|rolls| / |players|) as real >= rounds
    requires Derive(players, rolls, rounds).winner.Some?
    requires k in KeysIn(rolls)
    requires SumFor(rolls, k) == SumFor(rolls, Derive(players, rolls, rounds).winner.value)
    ensures FirstPos(Replay(rolls), Derive(players, rolls, rounds).winner.value) <= FirstPos(Replay(rolls), k)
  {
    var order := Replay(rolls);
    var t := Totals(order);
    var w := Derive(players, rolls, rounds).winner.value;
    var b := BestIndex(t);
    assert w == t[b].key;
    TotalsAreSums(rolls);
    TotalsFirstAppearance(order);
    var j :| 0 <= j < |t| && t[j].key == k;
    KeyIndexAt(t, k, j);
    KeyIndexAt(t, w, b);
    assert SumAt(t, k) == SumFor(rolls, k) && SumAt(t, w) == SumFor(rolls, w);
    BestIndexEarliest(t, order, j);
  }
  /** Rolls made with no player are tallied under the key `"null"`, and that key can be
      declared the winner: one player, a game of one round, and a single roll that carries
      no player id. */
  lemma {:induction false} UnattributedRollCanWin(p: Player, x: Roll)
    requires x.playerId.None?
    ensures Derive([p], [x], 1.0).winner == Some("null")
  {
    assert Replay([x]) == [x];
    assert Totals([x]) == [Tally("null", x.total)];
  }
}
