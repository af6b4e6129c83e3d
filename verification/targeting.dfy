/** Which players target the local player, and how one tick's targeters
    differ from the previous tick's (`GetPlayersTargetingLocalPlayer` and the
    two `Except` calls of `LogTargetingChanges`). */
module Targeting {
  import opened Objects

  /** A player character whose target is the local player. */
  predicate TargetsLocal(o: GameObject, local: GameObject)
  {
    o.isPlayer && o.targetId == local.id
  }

  /** `objects.OfType<IPlayerCharacter>().Where(obj => obj.TargetObjectId == localPlayer.GameObjectId)`:
      exactly the player objects aimed at the local player, in table order. */
  function TargetersOf(objects: seq<GameObject>, local: GameObject): (r: seq<GameObject>)
    ensures forall o :: o in r ==> o in objects && TargetsLocal(o, local)
    ensures forall o :: o in objects && TargetsLocal(o, local) ==> o in r
    ensures Subsequence(r, objects)
  {
    if objects == [] then []
    else if TargetsLocal(objects[0], local) then [objects[0]] + TargetersOf(objects[1..], local)
    else TargetersOf(objects[1..], local)
  }

  /** The filter distributes over concatenation of the object table, so its
      result lists the targeters in the order the table enumerates them. */
  lemma {:induction false} TargetersOfConcat(a: seq<GameObject>, b: seq<GameObject>, local: GameObject)
    ensures TargetersOf(a + b, local) == TargetersOf(a, local) + TargetersOf(b, local)
  {
    if a == [] {
      assert a + b == b;
    } else {
      assert (a + b)[0] == a[0];
      assert (a + b)[1..] == a[1..] + b;
      TargetersOfConcat(a[1..], b, local);
    }
  }

  /** An object table without repeated handles yields targeters without repeated handles. */
  lemma {:induction false} TargetersOfDistinct(objects: seq<GameObject>, local: GameObject)
    requires ObjectIdsDistinct(objects)
    ensures ObjectIdsDistinct(TargetersOf(objects, local))
  {
    if objects != [] {
      var rest := objects[1..];
      assert ObjectIdsDistinct(rest) by {
        forall i, j | 0 <= i < j < |rest| ensures rest[i].id != rest[j].id {
          assert rest[i] == objects[i + 1] && rest[j] == objects[j + 1];
        }
      }
      TargetersOfDistinct(rest, local);
      var tail := TargetersOf(rest, local);
      if TargetsLocal(objects[0], local) {
        forall o | o in tail ensures o.id != objects[0].id {
          var k :| 0 <= k < |rest| && rest[k] == o;
          assert objects[k + 1] == o;
        }
        ConsDistinct(objects[0], tail);
      }
    }
  }

  /** Prepending an object whose handle is new keeps the handles distinct. */
  lemma ConsDistinct(x: GameObject, r: seq<GameObject>)
    requires ObjectIdsDistinct(r)
    requires forall o :: o in r ==> o.id != x.id
    ensures ObjectIdsDistinct([x] + r)
  {
    var s := [x] + r;
    forall i, j | 0 <= i < j < |s| ensures s[i].id != s[j].id {
      assert s[j] == r[j - 1];
      if i > 0 {
        assert s[i] == r[i - 1];
      }
    }
  }

  /** LINQ `first.Except(second, comparer)` with the comparer that looks at
      `GameObjectId` only: the objects of `first`, in order, whose handle does
      not occur in `second`, each handle reported once (at its first
      occurrence). */
  function ExceptById(first: seq<GameObject>, second: seq<GameObject>): (r: seq<GameObject>)
    ensures ObjectIds(r) == ObjectIds(first) - ObjectIds(second)
    ensures ObjectIdsDistinct(r)
    ensures Subsequence(r, first)
  {
    ExceptSeen(first, ObjectIds(second))
  }

  /** The loop inside `Except`: `seen` holds the handles already in its set
      (those of `second`, then those already yielded). */
  function ExceptSeen(first: seq<GameObject>, seen: set<ObjectId>): (r: seq<GameObject>)
    ensures ObjectIds(r) == ObjectIds(first) - seen
    ensures ObjectIdsDistinct(r)
    ensures Subsequence(r, first)
  {
    if first == [] then []
    else
      var rest := first[1..];
      assert ObjectIds(first) == {first[0].id} + ObjectIds(rest) by {
        assert first == [first[0]] + rest;
      }
      if first[0].id in seen then
        var r := ExceptSeen(rest, seen);
        assert r != [] ==> r[0] != first[0] by {
          if r != [] { assert r[0] in r; }
        }
        r
      else
        var tail := ExceptSeen(rest, seen + {first[0].id});
        assert forall o :: o in tail ==> o.id != first[0].id by {
          forall o | o in tail ensures o.id != first[0].id {
            assert o.id in ObjectIds(tail);
          }
        }
        ConsDistinct(first[0], tail);
        assert ObjectIds([first[0]] + tail) == {first[0].id} + ObjectIds(tail);
        [first[0]] + tail
  }

  /** The `Except` loop streams over `first`: the second part is filtered
      with the handles of the first part added to the seen set. Together
      with the one-element case this fixes the result completely, including
      which record of a repeated handle is reported (the first one). */
  lemma {:induction false} ExceptSeenConcat(a: seq<GameObject>, b: seq<GameObject>, seen: set<ObjectId>)
    ensures ExceptSeen(a + b, seen) == ExceptSeen(a, seen) + ExceptSeen(b, seen + ObjectIds(a))
  {
    if a == [] {
      assert a + b == b;
      assert ObjectIds(a) == {};
      assert seen + ObjectIds(a) == seen;
    } else {
      assert (a + b)[0] == a[0];
      assert (a + b)[1..] == a[1..] + b;
      assert ObjectIds(a) == {a[0].id} + ObjectIds(a[1..]) by {
        assert a == [a[0]] + a[1..];
      }
      if a[0].id in seen {
        ExceptSeenConcat(a[1..], b, seen);
        assert seen + ObjectIds(a[1..]) == seen + ObjectIds(a);
      } else {
        ExceptSeenConcat(a[1..], b, seen + {a[0].id});
        assert seen + {a[0].id} + ObjectIds(a[1..]) == seen + ObjectIds(a);
      }
    }
  }

  /** One object is reported exactly when its handle has not been seen. */
  lemma ExceptSeenSingle(x: GameObject, seen: set<ObjectId>)
    ensures ExceptSeen([x], seen) == if x.id in seen then [] else [x]
  {
    assert [x][1..] == [];
  }

  /** With a repeated handle the first record is the one reported:
      [b1, c, b2] minus nothing is [b1, c]. */
  lemma ExceptKeepsFirstRecord()
    ensures var b1 := GameObject(2, "B", 9, true);
            var c := GameObject(3, "C", 9, true);
            var b2 := GameObject(2, "B again", 9, true);
            ExceptById([b1, c, b2], []) == [b1, c]
  {
    var b1 := GameObject(2, "B", 9, true);
    var c := GameObject(3, "C", 9, true);
    var b2 := GameObject(2, "B again", 9, true);
    assert ObjectIds([]) == {};
    ExceptSeenConcat([b1, c], [b2], {});
    ExceptSeenConcat([b1], [c], {});
    assert [b1, c] + [b2] == [b1, c, b2];
    assert [b1] + [c] == [b1, c];
    ExceptSeenSingle(b1, {});
    ExceptSeenSingle(c, {} + ObjectIds([b1]));
    assert ObjectIds([b1]) == {2} by { assert b1 in [b1]; }
    assert ObjectIds([b1, c]) == {2, 3} by { assert b1 in [b1, c] && c in [b1, c]; }
    ExceptSeenSingle(b2, {} + ObjectIds([b1, c]));
  }

  /** A list of objects is empty exactly when it has no handles. */
  lemma NoHandlesNoObjects(s: seq<GameObject>)
    ensures ObjectIds(s) == {} <==> s == []
  {
    if s != [] {
      assert s[0].id in ObjectIds(s);
    }
  }

  /** No handle is reported both as having started and as having stopped in one tick. */
  lemma StartedStoppedDisjoint(current: seq<GameObject>, newly: seq<GameObject>)
    ensures ObjectIds(ExceptById(newly, current)) * ObjectIds(ExceptById(current, newly)) == {}
  {
  }

  /** Every handle of the new or previous targeters is a kept, started or
      stopped targeter, and exactly one of those: the diff loses nothing. */
  lemma DiffPartitions(current: seq<GameObject>, newly: seq<GameObject>)
    ensures var kept := ObjectIds(current) * ObjectIds(newly);
            var started := ObjectIds(ExceptById(newly, current));
            var stopped := ObjectIds(ExceptById(current, newly));
            && ObjectIds(current) + ObjectIds(newly) == kept + started + stopped
            && kept * started == {} && kept * stopped == {} && started * stopped == {}
  {
  }

  /** Worked example: previous targeters A, B and new targeters B, C give
      started = [C] and stopped = [A], although B's record differs in its name:
      only the handle is compared. */
  lemma DiffExample()
    ensures var a := GameObject(1, "A", 9, true);
            var b := GameObject(2, "B", 9, true);
            var b' := GameObject(2, "B renamed", 9, true);
            var c := GameObject(3, "C", 9, true);
            ExceptById([b', c], [a, b]) == [c] && ExceptById([a, b], [b', c]) == [a]
  {
    var a := GameObject(1, "A", 9, true);
    var b := GameObject(2, "B", 9, true);
    var b' := GameObject(2, "B renamed", 9, true);
    var c := GameObject(3, "C", 9, true);
    assert ObjectIds([a, b]) == {1, 2} by {
      assert a in [a, b] && b in [a, b];
    }
    assert ObjectIds([b', c]) == {2, 3} by {
      assert b' in [b', c] && c in [b', c];
    }
    assert [b', c][1..] == [c];
    assert [a, b][1..] == [b];
  }
}
