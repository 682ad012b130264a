/** The roll merge reducer: append-only and de-duplicated by id, then re-sorted newest
    first. A stored roll is never overwritten. */
module RollMerge {
  import opened Common
  import opened Records

  /** The first roll of `rs` with the given id. */
  function FirstRollWithId(rs: seq<Roll>, id: string): (r: Option<Roll>)
    ensures r.Some? ==> r.value.id == id && r.value in rs
    ensures r.None? <==> id !in RollIds(rs)
  {
    if |rs| == 0 then None
    else
      assert rs == [rs[0]] + rs[1..];
      RollIdsConcat([rs[0]], rs[1..]);
      RollIdsOne(rs[0]);
      if rs[0].id == id then Some(rs[0]) else FirstRollWithId(rs[1..], id)
  }

  /** The roll found is the first one with the id: a roll with the id that no earlier
      roll shares it with is the one returned. */
  lemma {:induction false} FirstRollWithIdIsFirst(rs: seq<Roll>, id: string, i: int)
    requires 0 <= i < |rs| && rs[i].id == id
    requires forall j :: 0 <= j < i ==> rs[j].id != id
    ensures FirstRollWithId(rs, id) == Some(rs[i])
  {
    if i > 0 {
      var t := rs[1..];
      assert forall j :: 0 <= j < i - 1 ==> t[j] == rs[j + 1];
      FirstRollWithIdIsFirst(t, id, i - 1);
    }
  }

  /** The remote rolls the reducer's `forEach` appends, in remote order: each one whose
      id is neither held locally (`seen` starts as the local ids) nor already appended. */
  function FreshRolls(seen: set<string>, remote: seq<Roll>): (r: seq<Roll>)
    ensures |r| <= |remote|
    decreases |remote|
  {
    if |remote| == 0 then []
    else if remote[0].id in seen then FreshRolls(seen, remote[1..])
    else [remote[0]] + FreshRolls(seen + {remote[0].id}, remote[1..])
  }

  /** Each added roll is unseen and the first remote roll of its id; the ids added are
      exactly the unseen remote ids; and none is added twice. */
  lemma {:induction false} FreshRollsSpec(seen: set<string>, remote: seq<Roll>)
    ensures var r := FreshRolls(seen, remote);
      && (forall i :: 0 <= i < |r| ==> r[i].id !in seen && FirstRollWithId(remote, r[i].id) == Some(r[i]))
      && RollIds(r) == RollIds(remote) - seen
      && UniqueRollIds(r)
  {
    FreshRollsFirst(seen, remote);
    FreshRollsIds(seen, remote);
    FreshRollsUnique(seen, remote);
  }

  /** Each added roll is unseen and the first remote roll of its id. */
  lemma {:induction false} FreshRollsFirst(seen: set<string>, remote: seq<Roll>)
    ensures forall i :: 0 <= i < |FreshRolls(seen, remote)| ==>
      && FreshRolls(seen, remote)[i].id !in seen
      && FirstRollWithId(remote, FreshRolls(seen, remote)[i].id) == Some(FreshRolls(seen, remote)[i])
    decreases |remote|
  {
    if |remote| > 0 {
      var x := remote[0];
      if x.id in seen {
        FreshRollsFirst(seen, remote[1..]);
        var r := FreshRolls(seen, remote[1..]);
        assert FreshRolls(seen, remote) == r;
        forall i | 0 <= i < |r|
          ensures FirstRollWithId(remote, r[i].id) == Some(r[i])
        {
          assert r[i].id !in seen && FirstRollWithId(remote[1..], r[i].id) == Some(r[i]);
        }
      } else {
        FreshRollsFirst(seen + {x.id}, remote[1..]);
        var rest := FreshRolls(seen + {x.id}, remote[1..]);
        var r := [x] + rest;
        assert FreshRolls(seen, remote) == r;
        forall i | 0 <= i < |r|
          ensures r[i].id !in seen && FirstRollWithId(remote, r[i].id) == Some(r[i])
        {
          if i > 0 {
            var y := rest[i - 1];
            assert r[i] == y;
            assert y.id !in seen + {x.id} && FirstRollWithId(remote[1..], y.id) == Some(y);
          }
        }
      }
    }
  }

  /** The ids added are exactly the unseen remote ids. */
  lemma {:induction false} FreshRollsIds(seen: set<string>, remote: seq<Roll>)
    ensures RollIds(FreshRolls(seen, remote)) == RollIds(remote) - seen
    decreases |remote|
  {
    if |remote| > 0 {
      var x := remote[0];
      assert RollIds(remote) == {x.id} + RollIds(remote[1..]) by {
        assert remote == [x] + remote[1..];
        RollIdsConcat([x], remote[1..]);
        RollIdsOne(x);
      }
      if x.id in seen {
        FreshRollsIds(seen, remote[1..]);
      } else {
        FreshRollsIds(seen + {x.id}, remote[1..]);
        RollIdsConcat([x], FreshRolls(seen + {x.id}, remote[1..]));
        RollIdsOne(x);
      }
    }
  }

  /** No id is added twice. */
  lemma {:induction false} FreshRollsUnique(seen: set<string>, remote: seq<Roll>)
    ensures UniqueRollIds(FreshRolls(seen, remote))
    decreases |remote|
  {
    if |remote| > 0 {
      var x := remote[0];
      if x.id in seen {
        FreshRollsUnique(seen, remote[1..]);
      } else {
        FreshRollsUnique(seen + {x.id}, remote[1..]);
        FreshRollsIds(seen + {x.id}, remote[1..]);
        PrependUnique(x, FreshRolls(seen + {x.id}, remote[1..]));
      }
    }
  }

  /** Places `x` before the first roll that is not newer than it. */
  function InsertNewestFirst(x: Roll, s: seq<Roll>): (r: seq<Roll>)
    ensures multiset(r) == multiset(s) + multiset{x}
    ensures |r| == |s| + 1
    ensures r[0] == x || (|s| > 0 && r[0] == s[0])
  {
    if |s| == 0 || x.createdAt >= s[0].createdAt then [x] + s
    else
      assert s == [s[0]] + s[1..];
      [s[0]] + InsertNewestFirst(x, s[1..])
  }

  /** Inserting into a newest-first list keeps it newest first. */
  lemma {:induction false} InsertKeepsOrder(x: Roll, s: seq<Roll>)
    requires NewestFirst(s)
    ensures NewestFirst(InsertNewestFirst(x, s))
  {
    if |s| > 0 && x.createdAt < s[0].createdAt {
      InsertKeepsOrder(x, s[1..]);
      var rest := InsertNewestFirst(x, s[1..]);
      var r := [s[0]] + rest;
      forall i, j | 0 <= i < j < |r|
        ensures r[i].createdAt >= r[j].createdAt
      {
        if i == 0 {
          assert r[j] in multiset(rest);
          assert r[j] == x || r[j] in multiset(s[1..]);
          if r[j] != x {
            var k :| 0 <= k < |s[1..]| && s[1..][k] == r[j];
            assert s[k + 1] == r[j];
          }
        }
      }
    }
  }

  /** Putting a roll with a new id in front of a duplicate-free list keeps it duplicate-free. */
  lemma {:induction false} PrependUnique(h: Roll, rest: seq<Roll>)
    requires UniqueRollIds(rest) && h.id !in RollIds(rest)
    ensures UniqueRollIds([h] + rest)
  {
    var r := [h] + rest;
    forall i, j | 0 <= i < j < |r|
      ensures r[i].id != r[j].id
    {
      assert r[j] == rest[j - 1];
      if i > 0 {
        assert r[i] == rest[i - 1];
      }
    }
  }

  /** The tail of a duplicate-free list is duplicate-free, lacks the head's id, and has no
      id the list lacks. */
  lemma {:induction false} UniqueRollTail(s: seq<Roll>)
    requires |s| > 0 && UniqueRollIds(s)
    ensures UniqueRollIds(s[1..]) && s[0].id !in RollIds(s[1..]) && RollIds(s[1..]) <= RollIds(s)
  {
    var t := s[1..];
    assert forall k :: 0 <= k < |t| ==> t[k] == s[k + 1];
  }

  /** Inserting adds exactly the roll's id. */
  lemma {:induction false} InsertIds(x: Roll, s: seq<Roll>)
    ensures RollIds(InsertNewestFirst(x, s)) == RollIds(s) + {x.id}
  {
    assert multiset(InsertNewestFirst(x, s)) == multiset(s + [x]);
    RollIdsOfPermutation(InsertNewestFirst(x, s), s + [x]);
    RollIdsConcat(s, [x]);
    RollIdsOne(x);
  }

  /** Inserting a roll with a new id into a duplicate-free list keeps it duplicate-free. */
  lemma {:induction false} InsertKeepsUnique(x: Roll, s: seq<Roll>)
    requires UniqueRollIds(s) && x.id !in RollIds(s)
    ensures UniqueRollIds(InsertNewestFirst(x, s))
  {
    if |s| == 0 || x.createdAt >= s[0].createdAt {
      PrependUnique(x, s);
    } else {
      var t := s[1..];
      UniqueRollTail(s);
      InsertKeepsUnique(x, t);
      var rest := InsertNewestFirst(x, t);
      InsertIds(x, t);
      assert s[0].id in RollIds(s);
      PrependUnique(s[0], rest);
    }
  }

  /** `list.sort((a, b) => b.createdAt - a.createdAt)`: a stable sort, newest first;
      rolls with equal `createdAt` keep their relative order. */
  function SortNewestFirst(s: seq<Roll>): (r: seq<Roll>)
    ensures multiset(r) == multiset(s)
    ensures |r| == |s|
    ensures NewestFirst(r)
  {
    if |s| == 0 then []
    else
      assert s == [s[0]] + s[1..];
      var t := SortNewestFirst(s[1..]);
      InsertKeepsOrder(s[0], t);
      InsertNewestFirst(s[0], t)
  }

  /** Sorting keeps a duplicate-free list duplicate-free. */
  lemma {:induction false} SortKeepsUnique(s: seq<Roll>)
    requires UniqueRollIds(s)
    ensures UniqueRollIds(SortNewestFirst(s))
  {
    if |s| > 0 {
      var t := s[1..];
      assert forall k :: 0 <= k < |t| ==> t[k] == s[k + 1];
      SortKeepsUnique(t);
      RollIdsOfPermutation(t, SortNewestFirst(t));
      assert s[0].id !in RollIds(t);
      InsertKeepsUnique(s[0], SortNewestFirst(t));
    }
  }

  /** Sorting a list that is already newest first changes nothing. */
  lemma {:induction false} SortSortedIsIdentity(s: seq<Roll>)
    requires NewestFirst(s)
    ensures SortNewestFirst(s) == s
  {
    if |s| > 0 {
      assert NewestFirst(s[1..]);
      SortSortedIsIdentity(s[1..]);
    }
  }

  /** `mergeRolls` on lists: the change flag and the list stored afterwards. */
  function MergeRollLists(local: seq<Roll>, remote: seq<Roll>): (r: Merged<Roll>)
    ensures !r.changed ==> r.list == local
    ensures r.changed ==> NewestFirst(r.list) && |r.list| > |local|
    ensures remote == [] ==> r == Merged(false, local)
  {
    var added := FreshRolls(RollIds(local), remote);
    FreshRollsSpec(RollIds(local), remote);
    if |added| > 0 then Merged(true, SortNewestFirst(local + added)) else Merged(false, local)
  }

  /** The change flag is set exactly when some remote id was unseen; with a change the
      list is newest first, without one it is the local list untouched. */
  lemma {:induction false} MergeRollsChangeFlag(local: seq<Roll>, remote: seq<Roll>)
    ensures var r := MergeRollLists(local, remote);
      && (r.changed <==> !(RollIds(remote) <= RollIds(local)))
      && (r.changed ==> NewestFirst(r.list))
      && (!r.changed ==> r.list == local)
  {
    var added := FreshRolls(RollIds(local), remote);
    FreshRollsSpec(RollIds(local), remote);
    assert RollIds(added) == RollIds(remote) - RollIds(local);
    var r := MergeRollLists(local, remote);
    if |added| > 0 {
      assert added[0].id in RollIds(added);
      assert added[0].id in RollIds(remote) && added[0].id !in RollIds(local);
      assert r.changed;
      assert NewestFirst(r.list);
    } else {
      RollIdsEmpty(added);
      forall id | id in RollIds(remote)
        ensures id in RollIds(local)
      {
        assert id !in RollIds(remote) - RollIds(local);
      }
      assert !r.changed && r.list == local;
    }
  }

  /** The merged list is the local list plus the added rolls, as a multiset. */
  lemma {:induction false} MergeRollsContents(local: seq<Roll>, remote: seq<Roll>)
    ensures multiset(MergeRollLists(local, remote).list)
      == multiset(local) + multiset(FreshRolls(RollIds(local), remote))
  {
    var added := FreshRolls(RollIds(local), remote);
    FreshRollsSpec(RollIds(local), remote);
    if |added| > 0 {
      assert multiset(local + added) == multiset(local) + multiset(added);
    } else {
      assert multiset(added) == multiset{};
    }
  }

  /** Append-only: the merged list is the local list plus exactly the remote rolls with
      unseen ids (each once, the first of its id), so it never shrinks, every local roll
      survives, and the ids held afterwards are the local and the remote ones. */
  lemma {:induction false} MergeRollsAppendOnly(local: seq<Roll>, remote: seq<Roll>)
    ensures multiset(local) <= multiset(MergeRollLists(local, remote).list)
    ensures |MergeRollLists(local, remote).list| >= |local|
    ensures RollIds(MergeRollLists(local, remote).list) == RollIds(local) + RollIds(remote)
  {
    var added := FreshRolls(RollIds(local), remote);
    FreshRollsSpec(RollIds(local), remote);
    var r := MergeRollLists(local, remote).list;
    if |added| > 0 {
      assert r == SortNewestFirst(local + added);
      assert multiset(r) == multiset(local) + multiset(added) by {
        assert multiset(r) == multiset(local + added);
      }
      assert |r| >= |local| by {
        assert |multiset(r)| == |r|;
      }
      assert RollIds(r) == RollIds(local) + RollIds(remote) by {
        RollIdsConcat(local, added);
        RollIdsOfPermutation(local + added, r);
      }
    } else {
      MergeRollsChangeFlag(local, remote);
    }
  }

  /** Lists that are permutations of each other hold the same ids. */
  lemma {:induction false} RollIdsOfPermutation(a: seq<Roll>, b: seq<Roll>)
    requires multiset(a) == multiset(b)
    ensures RollIds(a) == RollIds(b)
  {
    forall id | id in RollIds(a) ensures id in RollIds(b) {
      var i :| 0 <= i < |a| && a[i].id == id;
      assert a[i] in multiset(b);
    }
    forall id | id in RollIds(b) ensures id in RollIds(a) {
      var i :| 0 <= i < |b| && b[i].id == id;
      assert b[i] in multiset(a);
    }
  }

  /** Merging keeps the namespace invariant that roll ids are unique. */
  lemma {:induction false} MergeRollsKeepsUnique(local: seq<Roll>, remote: seq<Roll>)
    requires UniqueRollIds(local)
    ensures UniqueRollIds(MergeRollLists(local, remote).list)
  {
    var added := FreshRolls(RollIds(local), remote);
    FreshRollsSpec(RollIds(local), remote);
    if |added| > 0 {
      var c := local + added;
      forall i, j | 0 <= i < j < |c|
        ensures c[i].id != c[j].id
      {
        if j >= |local| {
          assert c[j] == added[j - |local|];
          assert c[j].id !in RollIds(local);
          if i < |local| {
            assert c[i].id in RollIds(local);
          } else {
            assert c[i] == added[i - |local|];
          }
        }
      }
      SortKeepsUnique(c);
    }
  }

  /** Merging rolls whose ids are all held already (a subset of, or the very list held)
      is a no-op. */
  lemma {:induction false} MergeRollsSubsetNoop(local: seq<Roll>, remote: seq<Roll>)
    requires RollIds(remote) <= RollIds(local)
    ensures MergeRollLists(local, remote) == Merged(false, local)
  {
    var added := FreshRolls(RollIds(local), remote);
    FreshRollsIds(RollIds(local), remote);
    RollIdsEmpty(added);
  }

  /** Merging the same remote list a second time changes nothing. */
  lemma {:induction false} MergeRollsTwice(local: seq<Roll>, remote: seq<Roll>)
    ensures var once := MergeRollLists(local, remote).list;
      MergeRollLists(once, remote) == Merged(false, once)
  {
    MergeRollsAppendOnly(local, remote);
    MergeRollsSubsetNoop(MergeRollLists(local, remote).list, remote);
  }

  /** Across two lists, a roll id always names the same roll (rolls are immutable). */
  predicate ConsistentRolls(a: seq<Roll>, b: seq<Roll>)
  {
    forall x, y :: x in a + b && y in a + b && x.id == y.id ==> x == y
  }

  /** Every roll the reducer adds comes from the remote list. */
  lemma {:induction false} AddedFromRemote(seen: set<string>, remote: seq<Roll>, x: Roll)
    requires x in FreshRolls(seen, remote)
    ensures x in remote && x.id !in seen
  {
    var added := FreshRolls(seen, remote);
    FreshRollsSpec(seen, remote);
    var i :| 0 <= i < |added| && added[i] == x;
    assert FirstRollWithId(remote, x.id) == Some(x);
  }

  /** A remote roll not held locally, whose id names one roll on both sides, is added. */
  lemma {:induction false} RemoteRollAdded(a: seq<Roll>, b: seq<Roll>, x: Roll)
    requires ConsistentRolls(a, b)
    requires x in b && x !in a
    ensures x in FreshRolls(RollIds(a), b)
  {
    var added := FreshRolls(RollIds(a), b);
    FreshRollsSpec(RollIds(a), b);
    forall i | 0 <= i < |a|
      ensures a[i].id != x.id
    {
      assert a[i] != x;
      assert a[i] in a + b && x in a + b;
    }
    assert x.id in RollIds(added);
    var i :| 0 <= i < |added| && added[i].id == x.id;
    AddedFromRemote(RollIds(a), b, added[i]);
    assert added[i] in a + b && x in a + b;
  }

  /** With consistent ids, the merged list holds exactly the rolls of both sides. */
  lemma {:induction false} MergeRollsUnion(a: seq<Roll>, b: seq<Roll>)
    requires ConsistentRolls(a, b)
    ensures forall x :: x in MergeRollLists(a, b).list <==> x in a || x in b
  {
    var added := FreshRolls(RollIds(a), b);
    FreshRollsSpec(RollIds(a), b);
    var r := MergeRollLists(a, b).list;
    MergeRollsContents(a, b);
    forall x
      ensures x in r <==> x in a || x in b
    {
      assert x in r <==> x in multiset(r);
      assert x in multiset(r) <==> x in multiset(a) || x in multiset(added);
      if x in added {
        AddedFromRemote(RollIds(a), b, x);
      }
      if x in b && x !in a {
        RemoteRollAdded(a, b, x);
      }
    }
  }

  /** Convergence: two devices with consistent rolls that merge each other's snapshot
      hold the same set of rolls (their order may differ only among equal timestamps). */
  lemma {:induction false} MergeRollsConverge(a: seq<Roll>, b: seq<Roll>)
    requires ConsistentRolls(a, b)
    ensures forall x :: x in MergeRollLists(a, b).list <==> x in MergeRollLists(b, a).list
  {
    MergeRollsUnion(a, b);
    assert ConsistentRolls(b, a) by {
      assert forall x :: x in b + a <==> x in a + b;
    }
    MergeRollsUnion(b, a);
  }

  /** Merging a one-roll list with a different one-roll list sorts the pair. */
  lemma {:induction false} MergeSingletons(x: Roll, y: Roll)
    requires x.id != y.id
    ensures MergeRollLists([x], [y]).list == SortNewestFirst([x, y])
  {
    RollIdsOne(x);
    assert [y][1..] == [];
    assert FreshRolls({x.id}, [y]) == [y] + FreshRolls({x.id} + {y.id}, []);
    assert [x] + [y] == [x, y];
  }

  /** Sorting two rolls puts the strictly newer one first. */
  lemma {:induction false} SortPair(x: Roll, y: Roll)
    ensures SortNewestFirst([x, y]) == if x.createdAt >= y.createdAt then [x, y] else [y, x]
  {
    assert [x, y][1..] == [y];
    assert [y][1..] == [];
    assert SortNewestFirst([y]) == InsertNewestFirst(y, []);
    if x.createdAt < y.createdAt {
      assert InsertNewestFirst(x, [y]) == [y] + InsertNewestFirst(x, []);
    }
  }

  /** Two devices each holding one roll, created at different times, that exchange
      snapshots both end with the same two rolls, newer first. */
  lemma {:induction false} MergeRollsTwoDevices(older: Roll, newer: Roll)
    requires older.id != newer.id && older.createdAt < newer.createdAt
    ensures MergeRollLists([older], [newer]).list == [newer, older]
    ensures MergeRollLists([newer], [older]).list == [newer, older]
  {
    MergeSingletons(older, newer);
    MergeSingletons(newer, older);
    SortPair(older, newer);
    SortPair(newer, older);
  }

  /** `createdAt` strictly decreases along the list. */
  predicate StrictlyNewestFirst(rs: seq<Roll>)
  {
    forall i, j :: 0 <= i < j < |rs| ==> rs[i].createdAt > rs[j].createdAt
  }

  /** No two different rolls among `rs` were created at the same time. */
  predicate DistinctTimes(rs: seq<Roll>)
  {
    forall x, y :: x in rs && y in rs && x.createdAt == y.createdAt ==> x == y
  }

  /** A newest-first list without repeated ids or shared timestamps is strictly ordered. */
  lemma {:induction false} StrictFromDistinct(p: seq<Roll>, all: seq<Roll>)
    requires NewestFirst(p) && UniqueRollIds(p) && DistinctTimes(all)
    requires forall x :: x in p ==> x in all
    ensures StrictlyNewestFirst(p)
  {
    forall i, j | 0 <= i < j < |p|
      ensures p[i].createdAt > p[j].createdAt
    {
      assert p[i].id != p[j].id;
      assert p[i] in all && p[j] in all;
    }
  }

  /** Two strictly ordered lists holding the same rolls are the same list. */
  lemma {:induction false} StrictOrderDetermined(p: seq<Roll>, q: seq<Roll>)
    requires StrictlyNewestFirst(p) && StrictlyNewestFirst(q)
    requires forall x :: x in p <==> x in q
    ensures p == q
    decreases |p|
  {
    assert |q| > 0 ==> q[0] in p;
    if |p| > 0 {
      StrictHeadsEqual(p, q);
      StrictTail(p);
      StrictTail(q);
      StrictOrderDetermined(p[1..], q[1..]);
      assert p == [p[0]] + p[1..] && q == [q[0]] + q[1..];
    }
  }

  /** Two non-empty strictly ordered lists holding the same rolls start with the same roll:
      the newest one. */
  lemma {:induction false} StrictHeadsEqual(p: seq<Roll>, q: seq<Roll>)
    requires StrictlyNewestFirst(p) && StrictlyNewestFirst(q) && |p| > 0
    requires forall x :: x in p <==> x in q
    ensures |q| > 0 && p[0] == q[0]
  {
    assert p[0] in q;
    var k :| 0 <= k < |q| && q[k] == p[0];
    assert q[0] in p;
    var m :| 0 <= m < |p| && p[m] == q[0];
  }

  /** The tail of a strictly ordered list is strictly ordered and holds every roll of the
      list but its head. */
  lemma {:induction false} StrictTail(p: seq<Roll>)
    requires StrictlyNewestFirst(p) && |p| > 0
    ensures StrictlyNewestFirst(p[1..])
    ensures forall x :: x in p[1..] <==> x in p && x != p[0]
  {
    var t := p[1..];
    assert forall i :: 0 <= i < |t| ==> t[i] == p[i + 1];
    forall x | x in p && x != p[0]
      ensures x in t
    {
      var i :| 0 <= i < |p| && p[i] == x;
      assert t[i - 1] == x;
    }
    forall x | x in t
      ensures x != p[0]
    {
      var i :| 0 <= i < |t| && t[i] == x;
      assert x.createdAt < p[0].createdAt;
    }
  }

  /** A merged list is newest first and duplicate-free when the local one is. */
  lemma {:induction false} MergeRollsKeepsInvariant(local: seq<Roll>, remote: seq<Roll>)
    requires NewestFirst(local) && UniqueRollIds(local)
    ensures NewestFirst(MergeRollLists(local, remote).list)
    ensures UniqueRollIds(MergeRollLists(local, remote).list)
  {
    MergeRollsChangeFlag(local, remote);
    MergeRollsKeepsUnique(local, remote);
  }

  /** Two devices whose logs are newest first, duplicate-free and consistent, and whose
      rolls all carry different timestamps, end with the very same list (same rolls, same
      order) after merging each other's snapshot. */
  lemma {:induction false} MergeRollsSameOrder(a: seq<Roll>, b: seq<Roll>)
    requires NewestFirst(a) && NewestFirst(b) && UniqueRollIds(a) && UniqueRollIds(b)
    requires ConsistentRolls(a, b) && DistinctTimes(a + b)
    ensures MergeRollLists(a, b).list == MergeRollLists(b, a).list
  {
    var p := MergeRollLists(a, b).list;
    var q := MergeRollLists(b, a).list;
    MergeRollsKeepsInvariant(a, b);
    MergeRollsKeepsInvariant(b, a);
    MergeRollsUnion(a, b);
    MergeRollsConverge(a, b);
    StrictFromDistinct(p, a + b);
    StrictFromDistinct(q, a + b);
    StrictOrderDetermined(p, q);
  }
}
