/** The player merge reducer: last-write-wins by id with whole-record overwrite.

    The app builds a JavaScript `Map` from the local list (id to record), walks the
    remote list setting every record that is absent or differs, and, if anything was
    set, stores the map's values. A `Map` is modelled as its insertion-ordered list of
    values: keys are the records' ids, distinct, and `set` on an existing key keeps the
    key's position. */
module PlayerMerge {
  import opened Common
  import opened Records

  /** `map.get(id)`: the first record with that id. */
  function Lookup(m: seq<Player>, id: string): (r: Option<Player>)
    ensures r.Some? ==> r.value.id == id && r.value in m
    ensures r.None? <==> id !in PlayerIds(m)
  {
    if |m| == 0 then None
    else if m[0].id == id then Some(m[0])
    else
      assert PlayerIds(m) == {m[0].id} + PlayerIds(m[1..]);
      Lookup(m[1..], id)
  }

  /** `map.set(p.id, p)`: overwrite in place when the key exists, append otherwise. */
  function MapSet(m: seq<Player>, p: Player): (r: seq<Player>)
    ensures |r| == |m| || |r| == |m| + 1
  {
    if |m| == 0 then [p]
    else if m[0].id == p.id then [p] + m[1..]
    else [m[0]] + MapSet(m[1..], p)
  }

  /** After `set` the keys are the old keys plus the one set. */
  lemma {:induction false} MapSetIds(m: seq<Player>, p: Player)
    ensures PlayerIds(MapSet(m, p)) == PlayerIds(m) + {p.id}
  {
    if |m| == 0 {
      PlayerIdsOne(p);
    } else {
      assert m == [m[0]] + m[1..];
      PlayerIdsConcat([m[0]], m[1..]);
      PlayerIdsOne(m[0]);
      if m[0].id == p.id {
        PlayerIdsConcat([p], m[1..]);
        PlayerIdsOne(p);
      } else {
        MapSetIds(m[1..], p);
        PlayerIdsConcat([m[0]], MapSet(m[1..], p));
      }
    }
  }

  /** After `set`, the key holds the new record and every other key its old one; a
      duplicate-free map stays duplicate-free. */
  lemma {:induction false} MapSetLookup(m: seq<Player>, p: Player)
    ensures forall id :: Lookup(MapSet(m, p), id) == if id == p.id then Some(p) else Lookup(m, id)
    ensures UniquePlayerIds(m) ==> UniquePlayerIds(MapSet(m, p))
  {
    if |m| > 0 && m[0].id != p.id {
      MapSetLookup(m[1..], p);
      var rest := MapSet(m[1..], p);
      assert ([m[0]] + rest)[1..] == rest;
      if UniquePlayerIds(m) {
        assert UniquePlayerIds(m[1..]) by {
          forall i, j | 0 <= i < j < |m[1..]|
            ensures m[1..][i].id != m[1..][j].id
          {
            assert m[1..][i] == m[i + 1] && m[1..][j] == m[j + 1];
          }
        }
        forall j | 0 <= j < |m[1..]|
          ensures m[1..][j].id != m[0].id
        {
          assert m[1..][j] == m[j + 1];
        }
        assert m[0].id !in PlayerIds(m[1..]);
        MapSetIds(m[1..], p);
        assert m[0].id !in PlayerIds(rest);
        forall j | 0 <= j < |rest|
          ensures rest[j].id != m[0].id
        {
          assert rest[j].id in PlayerIds(rest);
        }
        assert UniquePlayerIds([m[0]] + rest) by {
          var r := [m[0]] + rest;
          forall i, j | 0 <= i < j < |r|
            ensures r[i].id != r[j].id
          {
            if i == 0 {
              assert r[j] == rest[j - 1];
            } else {
              assert r[i] == rest[i - 1] && r[j] == rest[j - 1];
            }
          }
        }
      }
    } else if |m| > 0 {
      assert ([p] + m[1..])[1..] == m[1..];
      if UniquePlayerIds(m) {
        var r := [p] + m[1..];
        forall i, j | 0 <= i < j < |r|
          ensures r[i].id != r[j].id
        {
          if i == 0 {
            assert r[j] == m[j];
          } else {
            assert r[i] == m[i] && r[j] == m[j];
          }
        }
      }
    }
  }

  /** Setting every record of `ps` in order, as `new Map(entries)` does. */
  function SetAll(m: seq<Player>, ps: seq<Player>): seq<Player>
    decreases |ps|
  {
    if |ps| == 0 then m else SetAll(MapSet(m, ps[0]), ps[1..])
  }

  /** `new Map(local.map(p => [p.id, p]))`. */
  function MapFromList(local: seq<Player>): seq<Player>
  {
    SetAll([], local)
  }

  /** The last record of `ps` with the given id: the one a sequence of `set`s leaves. */
  function LastWithId(ps: seq<Player>, id: string): (r: Option<Player>)
    ensures r.Some? ==> r.value.id == id && r.value in ps
    ensures r.None? <==> id !in PlayerIds(ps)
  {
    if |ps| == 0 then None
    else
      assert PlayerIds(ps) == {ps[0].id} + PlayerIds(ps[1..]);
      var later := LastWithId(ps[1..], id);
      if later.Some? then later
      else if ps[0].id == id then Some(ps[0])
      else None
  }

  /** The record found is the last one with the id: a record with the id that no later
      record shares it with is the one returned. */
  lemma {:induction false} LastWithIdIsLast(ps: seq<Player>, id: string, i: int)
    requires 0 <= i < |ps| && ps[i].id == id
    requires forall j :: i < j < |ps| ==> ps[j].id != id
    ensures LastWithId(ps, id) == Some(ps[i])
  {
    var t := ps[1..];
    if i > 0 {
      assert forall j :: i - 1 < j < |t| ==> t[j] == ps[j + 1];
      LastWithIdIsLast(t, id, i - 1);
    } else {
      assert forall j :: 0 <= j < |t| ==> t[j] == ps[j + 1];
      assert id !in PlayerIds(t);
    }
  }

  /** The `forEach` of the reducer: set each remote record that is absent or differs,
      and remember whether any was set. */
  function SetChanged(m: seq<Player>, remote: seq<Player>): Merged<Player>
    decreases |remote|
  {
    if |remote| == 0 then Merged(false, m)
    else if Lookup(m, remote[0].id) != Some(remote[0]) then
      Merged(true, SetChanged(MapSet(m, remote[0]), remote[1..]).list)
    else SetChanged(m, remote[1..])
  }

  /** `mergePlayers` on lists: the change flag and the list stored afterwards. */
  function MergePlayerLists(local: seq<Player>, remote: seq<Player>): (r: Merged<Player>)
    ensures !r.changed ==> r.list == local
    ensures remote == [] ==> r == Merged(false, local)
  {
    var walked := SetChanged(MapFromList(local), remote);
    if walked.changed then walked else Merged(false, local)
  }

  /** Skipping an identical record is the same as setting it, so the walk's list is
      exactly the map after setting every remote record. */
  lemma {:induction false} SetChangedList(m: seq<Player>, remote: seq<Player>)
    ensures SetChanged(m, remote).list == SetAll(m, remote)
    decreases |remote|
  {
    if |remote| > 0 {
      var p := remote[0];
      if Lookup(m, p.id) != Some(p) {
        SetChangedList(MapSet(m, p), remote[1..]);
      } else {
        MapSetIdentical(m, p);
        SetChangedList(m, remote[1..]);
      }
    }
  }

  /** Setting a key to the record it already holds leaves the map as it was. */
  lemma {:induction false} MapSetIdentical(m: seq<Player>, p: Player)
    requires Lookup(m, p.id) == Some(p)
    ensures MapSet(m, p) == m
  {
    if |m| > 0 && m[0].id != p.id {
      MapSetIdentical(m[1..], p);
    }
  }

  /** After a sequence of `set`s each key holds the last record set for it, and keys
      never set keep their old record. */
  lemma {:induction false} SetAllLookup(m: seq<Player>, ps: seq<Player>, id: string)
    ensures Lookup(SetAll(m, ps), id) == if id in PlayerIds(ps) then LastWithId(ps, id) else Lookup(m, id)
    decreases |ps|
  {
    if |ps| > 0 {
      assert ps == [ps[0]] + ps[1..];
      PlayerIdsConcat([ps[0]], ps[1..]);
      PlayerIdsOne(ps[0]);
      MapSetLookup(m, ps[0]);
      SetAllLookup(MapSet(m, ps[0]), ps[1..], id);
    }
  }

  /** The key set after a sequence of `set`s, and the map stays duplicate-free. */
  lemma {:induction false} SetAllIds(m: seq<Player>, ps: seq<Player>)
    ensures PlayerIds(SetAll(m, ps)) == PlayerIds(m) + PlayerIds(ps)
    ensures UniquePlayerIds(m) ==> UniquePlayerIds(SetAll(m, ps))
    decreases |ps|
  {
    if |ps| > 0 {
      assert ps == [ps[0]] + ps[1..];
      PlayerIdsConcat([ps[0]], ps[1..]);
      PlayerIdsOne(ps[0]);
      MapSetIds(m, ps[0]);
      MapSetLookup(m, ps[0]);
      SetAllIds(MapSet(m, ps[0]), ps[1..]);
    }
  }

  /** Setting a new key appends it. */
  lemma {:induction false} MapSetFresh(m: seq<Player>, p: Player)
    requires forall i :: 0 <= i < |m| ==> m[i].id != p.id
    ensures MapSet(m, p) == m + [p]
  {
    if |m| > 0 {
      var t := m[1..];
      assert forall k :: 0 <= k < |t| ==> t[k] == m[k + 1];
      MapSetFresh(t, p);
      assert m + [p] == [m[0]] + (t + [p]);
    }
  }

  /** No id of `a` occurs in `b`. */
  predicate DisjointIds(a: seq<Player>, b: seq<Player>)
  {
    forall i, j :: 0 <= i < |a| && 0 <= j < |b| ==> a[i].id != b[j].id
  }

  /** Moving the head of a fresh, duplicate-free list onto the map keeps both conditions. */
  lemma {:induction false} FreshStep(m: seq<Player>, ps: seq<Player>)
    requires |ps| > 0 && UniquePlayerIds(ps) && DisjointIds(m, ps)
    ensures UniquePlayerIds(ps[1..]) && DisjointIds(m + [ps[0]], ps[1..])
  {
    var t := ps[1..];
    var m2 := m + [ps[0]];
    forall a, b | 0 <= a < b < |t|
      ensures t[a].id != t[b].id
    {
      assert t[a] == ps[a + 1] && t[b] == ps[b + 1];
    }
    forall a, b | 0 <= a < |m2| && 0 <= b < |t|
      ensures m2[a].id != t[b].id
    {
      assert t[b] == ps[b + 1];
      if a < |m| {
        assert m2[a] == m[a];
      } else {
        assert m2[a] == ps[0];
      }
    }
  }

  /** Setting records with fresh, distinct ids appends them in order. */
  lemma {:induction false} SetAllFresh(m: seq<Player>, ps: seq<Player>)
    requires UniquePlayerIds(ps) && DisjointIds(m, ps)
    ensures SetAll(m, ps) == m + ps
    decreases |ps|
  {
    if |ps| > 0 {
      var m2 := m + [ps[0]];
      MapSetFresh(m, ps[0]);
      FreshStep(m, ps);
      SetAllFresh(m2, ps[1..]);
      assert SetAll(m, ps) == SetAll(m2, ps[1..]);
      assert ps == [ps[0]] + ps[1..];
      assert m2 + ps[1..] == m + ([ps[0]] + ps[1..]);
    }
  }

  /** A duplicate-free list is its own map: building the `Map` changes nothing. */
  lemma {:induction false} MapFromUniqueList(local: seq<Player>)
    requires UniquePlayerIds(local)
    ensures MapFromList(local) == local
  {
    SetAllFresh([], local);
  }

  /** In a duplicate-free list a record is found under its own id. */
  lemma {:induction false} LookupUnique(m: seq<Player>, p: Player)
    requires UniquePlayerIds(m) && p in m
    ensures Lookup(m, p.id) == Some(p)
  {
    if m[0] != p {
      assert p in m[1..];
      LookupUnique(m[1..], p);
    }
  }

  /** In a duplicate-free list the last record with an id is the only one. */
  lemma {:induction false} LastWithIdUnique(ps: seq<Player>, p: Player)
    requires UniquePlayerIds(ps) && p in ps
    ensures LastWithId(ps, p.id) == Some(p)
  {
    if ps[0] == p {
      assert p.id !in PlayerIds(ps[1..]);
    } else {
      assert p in ps[1..];
      LastWithIdUnique(ps[1..], p);
    }
  }

  /** The reducer reports no change exactly when every remote record is already what the
      local `Map` holds under its id; then nothing is to be written. */
  lemma {:induction false} SetChangedFlag(m: seq<Player>, remote: seq<Player>)
    ensures !SetChanged(m, remote).changed
      <==> forall k :: 0 <= k < |remote| ==> Lookup(m, remote[k].id) == Some(remote[k])
    ensures !SetChanged(m, remote).changed ==> SetChanged(m, remote).list == m
    decreases |remote|
  {
    if |remote| > 0 {
      if Lookup(m, remote[0].id) == Some(remote[0]) {
        SetChangedFlag(m, remote[1..]);
        assert forall k :: 1 <= k < |remote| ==> remote[k] == remote[1..][k - 1];
      }
    }
  }

  /** Merge result, as the reducer promises: the merged list holds every local and remote
      id once; each remote id holds the last remote record with that id; each other id
      keeps its local record; and nothing changes exactly when every remote record is
      already held. */
  lemma {:induction false} MergePlayersResult(local: seq<Player>, remote: seq<Player>)
    requires UniquePlayerIds(local)
    ensures var r := MergePlayerLists(local, remote);
      && UniquePlayerIds(r.list)
      && PlayerIds(r.list) == PlayerIds(local) + PlayerIds(remote)
      && (forall id :: id in PlayerIds(remote) ==> Lookup(r.list, id) == LastWithId(remote, id))
      && (forall id :: id !in PlayerIds(remote) ==> Lookup(r.list, id) == Lookup(local, id))
      && (!r.changed <==> forall k :: 0 <= k < |remote| ==> Lookup(local, remote[k].id) == Some(remote[k]))
      && (!r.changed ==> r.list == local)
  {
    MapFromUniqueList(local);
    SetChangedList(local, remote);
    SetChangedFlag(local, remote);
    SetAllIds(local, remote);
    forall id
      ensures Lookup(SetAll(local, remote), id)
        == if id in PlayerIds(remote) then LastWithId(remote, id) else Lookup(local, id)
    {
      SetAllLookup(local, remote, id);
    }
    var r := MergePlayerLists(local, remote);
    if !r.changed {
      forall id | id in PlayerIds(remote)
        ensures Lookup(local, id) == LastWithId(remote, id)
      {
        var k :| 0 <= k < |remote| && remote[k].id == id;
        assert Lookup(local, remote[k].id) == Some(remote[k]);
        SetAllLookup(local, remote, id);
      }
    }
  }

  /** Membership by id: `p` is kept by the filter exactly when its id is outside `ids`. */
  function IdOutside(ids: set<string>): Player -> bool
  {
    (p: Player) => p.id !in ids
  }

  /** Overwriting a record whose id is excluded does not show through the filter. */
  lemma {:induction false} MapSetHidden(m: seq<Player>, p: Player, ids: set<string>)
    requires p.id in ids
    ensures Filter(MapSet(m, p), IdOutside(ids)) == Filter(m, IdOutside(ids))
  {
    if |m| == 0 {
      assert Filter([p], IdOutside(ids)) == [];
    } else if m[0].id == p.id {
      assert ([p] + m[1..])[1..] == m[1..];
    } else {
      MapSetHidden(m[1..], p, ids);
      assert ([m[0]] + MapSet(m[1..], p))[1..] == MapSet(m[1..], p);
    }
  }

  /** Sets of records whose ids are all excluded do not show through the filter. */
  lemma {:induction false} SetAllHidden(m: seq<Player>, ps: seq<Player>, ids: set<string>)
    requires PlayerIds(ps) <= ids
    ensures Filter(SetAll(m, ps), IdOutside(ids)) == Filter(m, IdOutside(ids))
    decreases |ps|
  {
    if |ps| > 0 {
      assert ps == [ps[0]] + ps[1..];
      PlayerIdsConcat([ps[0]], ps[1..]);
      PlayerIdsOne(ps[0]);
      MapSetHidden(m, ps[0], ids);
      SetAllHidden(MapSet(m, ps[0]), ps[1..], ids);
    }
  }

  /** Local players whose ids do not occur remotely are kept unchanged and in their
      original order. */
  lemma {:induction false} MergePlayersKeepsOthers(local: seq<Player>, remote: seq<Player>)
    requires UniquePlayerIds(local)
    ensures Filter(MergePlayerLists(local, remote).list, IdOutside(PlayerIds(remote)))
         == Filter(local, IdOutside(PlayerIds(remote)))
  {
    MapFromUniqueList(local);
    SetChangedList(local, remote);
    SetAllHidden(local, remote, PlayerIds(remote));
  }

  /** Idempotence: merging a list every record of which is already held locally (in
      particular, the local list itself) reports no change and keeps the list. */
  lemma {:induction false} MergePlayersIdempotent(local: seq<Player>, remote: seq<Player>)
    requires UniquePlayerIds(local)
    requires forall k :: 0 <= k < |remote| ==> remote[k] in local
    ensures !MergePlayerLists(local, remote).changed
    ensures MergePlayerLists(local, remote).list == local
  {
    forall k | 0 <= k < |remote|
      ensures Lookup(local, remote[k].id) == Some(remote[k])
    {
      LookupUnique(local, remote[k]);
    }
    MergePlayersResult(local, remote);
  }

  /** Merging the same duplicate-free remote list a second time changes nothing. */
  lemma {:induction false} MergePlayersTwice(local: seq<Player>, remote: seq<Player>)
    requires UniquePlayerIds(local) && UniquePlayerIds(remote)
    ensures var once := MergePlayerLists(local, remote).list;
      !MergePlayerLists(once, remote).changed && MergePlayerLists(once, remote).list == once
  {
    MergePlayersResult(local, remote);
    var once := MergePlayerLists(local, remote).list;
    forall k | 0 <= k < |remote|
      ensures Lookup(once, remote[k].id) == Some(remote[k])
    {
      LastWithIdUnique(remote, remote[k]);
    }
    MergePlayersResult(once, remote);
  }

  /** Two lists agree when every id they share carries the same record in both. */
  predicate Agree(a: seq<Player>, b: seq<Player>)
  {
    forall i, j :: 0 <= i < |a| && 0 <= j < |b| && a[i].id == b[j].id ==> a[i] == b[j]
  }

  /** Convergence: two devices whose lists agree on shared ids and that each merge the
      other's snapshot end up holding the same record under every id. */
  lemma {:induction false} MergePlayersConverge(a: seq<Player>, b: seq<Player>)
    requires UniquePlayerIds(a) && UniquePlayerIds(b) && Agree(a, b)
    ensures forall id :: Lookup(MergePlayerLists(a, b).list, id) == Lookup(MergePlayerLists(b, a).list, id)
  {
    MergePlayersResult(a, b);
    MergePlayersResult(b, a);
    forall id
      ensures Lookup(MergePlayerLists(a, b).list, id) == Lookup(MergePlayerLists(b, a).list, id)
    {
      if id in PlayerIds(a) && id in PlayerIds(b) {
        var pa := Lookup(a, id).value;
        var pb := Lookup(b, id).value;
        LastWithIdUnique(a, pa);
        LastWithIdUnique(b, pb);
        var i :| 0 <= i < |a| && a[i] == pa;
        var j :| 0 <= j < |b| && b[j] == pb;
        assert pa == pb;
      } else if id in PlayerIds(b) {
        LastWithIdUnique(b, Lookup(b, id).value);
      } else if id in PlayerIds(a) {
        LastWithIdUnique(a, Lookup(a, id).value);
      }
    }
  }

  /** Whole-record overwrite is not convergent under conflict: when both devices edited
      the same player and exchange snapshots at once, each takes the other's record. */
  lemma {:induction false} MergePlayersSwapOnConflict(p: Player, q: Player)
    requires p.id == q.id && p != q
    ensures MergePlayerLists([p], [q]).list == [q]
    ensures MergePlayerLists([q], [p]).list == [p]
  {
    assert [p][1..] == [] && [q][1..] == [];
    assert MapSet([], p) == [p] && MapSet([], q) == [q];
    assert MapFromList([p]) == SetAll([p], []) == [p];
    assert MapFromList([q]) == SetAll([q], []) == [q];
    assert MapSet([p], q) == [q] + [p][1..] == [q];
    assert MapSet([q], p) == [p] + [q][1..] == [p];
    assert SetChanged([p], [q]) == Merged(true, SetChanged([q], []).list);
    assert SetChanged([q], [p]) == Merged(true, SetChanged([p], []).list);
  }
}
