/** The target history as `UpdateTargetHistory` leaves it: for every current
    targeter, in turn, its old entries are removed and a fresh entry is put
    at the front; then the tail is cut to the configured maximum. */
module History {
  import opened Objects

  /** The entry written for a targeter at time `now`. */
  function EntryFor(p: GameObject, now: Timestamp): HistoryEntry
  {
    HistoryEntry(p.id, p.name, now)
  }

  /** `targetHistory.RemoveAll(t => t.GameObjectId ∈ ids)`: the entries whose
      handle is not in `ids`, in their old order. */
  function RemoveIds(h: seq<HistoryEntry>, ids: set<ObjectId>): (r: seq<HistoryEntry>)
    ensures forall e :: e in r <==> e in h && e.id !in ids
    ensures Subsequence(r, h)
    ensures |r| <= |h|
  {
    if h == [] then []
    else if h[0].id in ids then RemoveIds(h[1..], ids)
    else [h[0]] + RemoveIds(h[1..], ids)
  }

  /** The history after the `foreach` over the targeters `ps`, each stamped
      `now`: each iteration drops the player's old entries, then `Insert(0, …)`. */
  function RefreshAll(h: seq<HistoryEntry>, ps: seq<GameObject>, now: Timestamp): (r: seq<HistoryEntry>)
    ensures EntryIds(r) == EntryIds(h) + ObjectIds(ps)
    decreases |ps|
  {
    if ps == [] then h
    else
      var prev := RefreshAll(h, ps[..|ps| - 1], now);
      ObjectIdsSnoc(ps);
      var e := EntryFor(ps[|ps| - 1], now);
      PrependIds(prev, e);
      [e] + RemoveIds(prev, {e.id})
  }

  lemma ObjectIdsSnoc(ps: seq<GameObject>)
    requires ps != []
    ensures ObjectIds(ps) == ObjectIds(ps[..|ps| - 1]) + {ps[|ps| - 1].id}
  {
    assert ps == ps[..|ps| - 1] + [ps[|ps| - 1]];
  }

  lemma PrependIds(h: seq<HistoryEntry>, e: HistoryEntry)
    ensures EntryIds([e] + RemoveIds(h, {e.id})) == EntryIds(h) + {e.id}
  {
    var rest := RemoveIds(h, {e.id});
    forall x | x in EntryIds(h) + {e.id} ensures x in EntryIds([e] + rest) {
      if x != e.id {
        var d :| d in h && d.id == x;
        assert d in rest;
      }
    }
  }

  /** The `while (Count > MaxHistoryEntries) RemoveAt(Count - 1)` loop, for a
      non-negative maximum: only the tail goes, and at most `max` entries stay. */
  function Trim(h: seq<HistoryEntry>, max: nat): (r: seq<HistoryEntry>)
    ensures |r| <= max
    ensures r <= h
    ensures |h| <= max ==> r == h
    ensures |h| > max ==> |r| == max
  {
    if |h| <= max then h else h[..max]
  }

  /** How many entries of `h` carry the handle `x`. */
  function Occurrences(h: seq<HistoryEntry>, x: ObjectId): nat
  {
    if h == [] then 0
    else (if h[0].id == x then 1 else 0) + Occurrences(h[1..], x)
  }

  // ----- RemoveIds -----

  lemma {:induction false} RemoveIdsConcat(a: seq<HistoryEntry>, b: seq<HistoryEntry>, ids: set<ObjectId>)
    ensures RemoveIds(a + b, ids) == RemoveIds(a, ids) + RemoveIds(b, ids)
  {
    if a == [] {
      assert a + b == b;
    } else {
      assert (a + b)[0] == a[0];
      assert (a + b)[1..] == a[1..] + b;
      RemoveIdsConcat(a[1..], b, ids);
    }
  }

  lemma {:induction false} RemoveIdsTwice(h: seq<HistoryEntry>, s: set<ObjectId>, t: set<ObjectId>)
    ensures RemoveIds(RemoveIds(h, s), t) == RemoveIds(h, s + t)
  {
    if h != [] {
      RemoveIdsTwice(h[1..], s, t);
      if h[0].id !in s {
        assert RemoveIds(h, s) == [h[0]] + RemoveIds(h[1..], s);
        assert ([h[0]] + RemoveIds(h[1..], s))[1..] == RemoveIds(h[1..], s);
      }
    }
  }

  /** Removing handles none of the entries carry changes nothing. */
  lemma {:induction false} RemoveIdsNone(h: seq<HistoryEntry>, ids: set<ObjectId>)
    requires forall e :: e in h ==> e.id !in ids
    ensures RemoveIds(h, ids) == h
  {
    if h != [] {
      assert h == [h[0]] + h[1..];
      RemoveIdsNone(h[1..], ids);
    }
  }

  /** Removing handles every entry carries leaves nothing. */
  lemma {:induction false} RemoveIdsEvery(h: seq<HistoryEntry>, ids: set<ObjectId>)
    requires forall e :: e in h ==> e.id in ids
    ensures RemoveIds(h, ids) == []
  {
    if h != [] {
      assert h[0] in h;
      RemoveIdsEvery(h[1..], ids);
    }
  }

  lemma {:induction false} SubsequenceDistinct(r: seq<HistoryEntry>, h: seq<HistoryEntry>)
    requires Subsequence(r, h)
    requires EntryIdsDistinct(h)
    ensures EntryIdsDistinct(r)
  {
    if r != [] && h != [] {
      assert EntryIdsDistinct(h[1..]) by {
        forall i, j | 0 <= i < j < |h[1..]| ensures h[1..][i].id != h[1..][j].id {
          assert h[1..][i] == h[i + 1] && h[1..][j] == h[j + 1];
        }
      }
      if r[0] == h[0] && Subsequence(r[1..], h[1..]) {
        SubsequenceDistinct(r[1..], h[1..]);
        SubsequenceElements(r[1..], h[1..]);
        forall e | e in r[1..] ensures e.id != r[0].id {
          var k :| 0 <= k < |h[1..]| && h[1..][k] == e;
          assert h[k + 1] == e;
        }
        ConsEntryDistinct(r[0], r[1..]);
        assert r == [r[0]] + r[1..];
      } else {
        SubsequenceDistinct(r, h[1..]);
      }
    }
  }

  lemma {:induction false} SubsequenceElements<T>(r: seq<T>, s: seq<T>)
    requires Subsequence(r, s)
    ensures forall x :: x in r ==> x in s
  {
    if r != [] && s != [] {
      if r[0] == s[0] && Subsequence(r[1..], s[1..]) {
        SubsequenceElements(r[1..], s[1..]);
        assert r == [r[0]] + r[1..];
      } else {
        SubsequenceElements(r, s[1..]);
      }
    }
  }

  lemma ConsEntryDistinct(e: HistoryEntry, r: seq<HistoryEntry>)
    requires EntryIdsDistinct(r)
    requires forall x :: x in r ==> x.id != e.id
    ensures EntryIdsDistinct([e] + r)
  {
    var s := [e] + r;
    forall i, j | 0 <= i < j < |s| ensures s[i].id != s[j].id {
      assert s[j] == r[j - 1];
      if i > 0 {
        assert s[i] == r[i - 1];
      }
    }
  }

  /** A prefix keeps the order of the sequence it was cut from. */
  lemma {:induction false} SubsequencePrefix(r: seq<HistoryEntry>, s: seq<HistoryEntry>)
    requires r <= s
    ensures Subsequence(r, s)
  {
    if r != [] {
      assert r[1..] <= s[1..];
      SubsequencePrefix(r[1..], s[1..]);
    }
  }

  // ----- RefreshAll -----

  /** The refreshed history is the history the targeters alone would produce,
      followed by the old entries of every other handle in their old order and
      with their old timestamps. */
  lemma {:induction false} RefreshSplits(h: seq<HistoryEntry>, ps: seq<GameObject>, now: Timestamp)
    ensures RefreshAll(h, ps, now) == RefreshAll([], ps, now) + RemoveIds(h, ObjectIds(ps))
  {
    if ps == [] {
      assert ObjectIds(ps) == {};
      RemoveIdsNone(h, {});
    } else {
      var init := ps[..|ps| - 1];
      var p := ps[|ps| - 1];
      var e := EntryFor(p, now);
      assert ObjectIds(ps) == ObjectIds(init) + {p.id} by {
        assert ps == init + [p];
      }
      RefreshSplits(h, init, now);
      var front := RefreshAll([], init, now);
      var back := RemoveIds(h, ObjectIds(init));
      calc {
        RefreshAll(h, ps, now);
        [e] + RemoveIds(front + back, {p.id});
        { RemoveIdsConcat(front, back, {p.id}); }
        [e] + RemoveIds(front, {p.id}) + RemoveIds(back, {p.id});
        { RemoveIdsTwice(h, ObjectIds(init), {p.id}); }
        RefreshAll([], ps, now) + RemoveIds(h, ObjectIds(ps));
      }
    }
  }

  /** The targeters' own part of the history holds each of their handles
      exactly once and nothing else. */
  lemma {:induction false} FrontHandles(ps: seq<GameObject>, now: Timestamp)
    ensures EntryIds(RefreshAll([], ps, now)) == ObjectIds(ps)
    ensures EntryIdsDistinct(RefreshAll([], ps, now))
    ensures |RefreshAll([], ps, now)| == |ObjectIds(ps)|
  {
    RefreshKeepsDistinct([], ps, now);
    DistinctCard(RefreshAll([], ps, now));
  }

  /** Refreshing keeps history handles pairwise distinct. */
  lemma {:induction false} RefreshKeepsDistinct(h: seq<HistoryEntry>, ps: seq<GameObject>, now: Timestamp)
    requires EntryIdsDistinct(h)
    ensures EntryIdsDistinct(RefreshAll(h, ps, now))
  {
    if ps != [] {
      var prev := RefreshAll(h, ps[..|ps| - 1], now);
      var p := ps[|ps| - 1];
      RefreshKeepsDistinct(h, ps[..|ps| - 1], now);
      var rest := RemoveIds(prev, {p.id});
      SubsequenceDistinct(rest, prev);
      ConsEntryDistinct(EntryFor(p, now), rest);
    }
  }

  /** With distinct targeters, the front of the history is the targeters in
      reverse iteration order: the last one iterated is the newest entry. */
  lemma {:induction false} FrontIsReversed(ps: seq<GameObject>, now: Timestamp)
    requires ObjectIdsDistinct(ps)
    ensures |RefreshAll([], ps, now)| == |ps|
    ensures forall i :: 0 <= i < |ps| ==> RefreshAll([], ps, now)[i] == EntryFor(ps[|ps| - 1 - i], now)
  {
    FrontIsNewestFirst(ps, now);
    forall i | 0 <= i < |ps| ensures NewestFirst(ps, now)[i] == EntryFor(ps[|ps| - 1 - i], now) {
      NewestFirstAt(ps, now, i);
    }
  }

  /** The entries of `ps`, last iterated first, without any de-duplication. */
  function NewestFirst(ps: seq<GameObject>, now: Timestamp): (r: seq<HistoryEntry>)
    ensures |r| == |ps|
  {
    if ps == [] then [] else [EntryFor(ps[|ps| - 1], now)] + NewestFirst(ps[..|ps| - 1], now)
  }

  lemma {:induction false} NewestFirstAt(ps: seq<GameObject>, now: Timestamp, i: nat)
    requires i < |ps|
    ensures NewestFirst(ps, now)[i] == EntryFor(ps[|ps| - 1 - i], now)
  {
    if i > 0 {
      var init := ps[..|ps| - 1];
      NewestFirstAt(init, now, i - 1);
      assert init[|init| - 1 - (i - 1)] == ps[|ps| - 1 - i];
    }
  }

  lemma {:induction false} FrontIsNewestFirst(ps: seq<GameObject>, now: Timestamp)
    requires ObjectIdsDistinct(ps)
    ensures RefreshAll([], ps, now) == NewestFirst(ps, now)
  {
    if ps != [] {
      DistinctUnsnoc(ps);
      FrontIsNewestFirst(ps[..|ps| - 1], now);
      FrontGrows(ps, now);
    }
  }

  /** Dropping the last targeter of a distinct list leaves a distinct list
      that lacks its handle. */
  lemma DistinctUnsnoc(ps: seq<GameObject>)
    requires ps != [] && ObjectIdsDistinct(ps)
    ensures ObjectIdsDistinct(ps[..|ps| - 1])
    ensures ps[|ps| - 1].id !in ObjectIds(ps[..|ps| - 1])
  {
    var init := ps[..|ps| - 1];
    forall i, j | 0 <= i < j < |init| ensures init[i].id != init[j].id {
      assert init[i] == ps[i] && init[j] == ps[j];
    }
    forall o | o in init ensures o.id != ps[|ps| - 1].id {
      var k :| 0 <= k < |init| && init[k] == o;
      assert ps[k] == o;
    }
  }

  /** A targeter whose handle is new to the history is simply put in front. */
  lemma FrontGrows(ps: seq<GameObject>, now: Timestamp)
    requires ps != []
    requires ps[|ps| - 1].id !in ObjectIds(ps[..|ps| - 1])
    ensures RefreshAll([], ps, now) == [EntryFor(ps[|ps| - 1], now)] + RefreshAll([], ps[..|ps| - 1], now)
  {
    var p := ps[|ps| - 1];
    var prev := RefreshAll([], ps[..|ps| - 1], now);
    forall e | e in prev ensures e.id !in {p.id} {
      assert e.id in EntryIds(prev);
    }
    RemoveIdsNone(prev, {p.id});
  }

  /** A distinct history has as many entries as handles. */
  lemma {:induction false} DistinctCard(h: seq<HistoryEntry>)
    requires EntryIdsDistinct(h)
    ensures |EntryIds(h)| == |h|
  {
    if h != [] {
      var rest := h[1..];
      DistinctUncons(h);
      DistinctCard(rest);
      assert h == [h[0]] + rest;
      assert EntryIds(h) == {h[0].id} + EntryIds(rest);
    }
  }

  /** The tail of a distinct history is distinct and lacks the head's handle. */
  lemma DistinctUncons(h: seq<HistoryEntry>)
    requires h != [] && EntryIdsDistinct(h)
    ensures EntryIdsDistinct(h[1..])
    ensures h[0].id !in EntryIds(h[1..])
  {
    var rest := h[1..];
    forall i, j | 0 <= i < j < |rest| ensures rest[i].id != rest[j].id {
      assert rest[i] == h[i + 1] && rest[j] == h[j + 1];
    }
    forall e | e in rest ensures e.id != h[0].id {
      var k :| 0 <= k < |rest| && rest[k] == e;
      assert h[k + 1] == e;
    }
  }

  lemma PrefixElements(r: seq<HistoryEntry>, s: seq<HistoryEntry>)
    requires r <= s
    ensures forall x :: x in r ==> x in s
  {
    forall x | x in r ensures x in s {
      var k :| 0 <= k < |r| && r[k] == x;
      assert s[k] == x;
    }
  }

  /** Cutting a concatenation: a part that fits is kept whole and the rest of
      the room goes to the second part. */
  lemma TrimConcat(a: seq<HistoryEntry>, b: seq<HistoryEntry>, max: nat)
    ensures |a| <= max ==> Trim(a + b, max) == a + Trim(b, max - |a|)
    ensures |a| > max ==> Trim(a + b, max) == a[..max]
  {
    if |a| <= max && |a + b| > max {
      assert (a + b)[..max] == a + b[..max - |a|];
    }
    if |a| > max {
      assert (a + b)[..max] == a[..max];
    }
  }

  // ----- Occurrences -----

  lemma {:induction false} OccurrencesConcat(a: seq<HistoryEntry>, b: seq<HistoryEntry>, x: ObjectId)
    ensures Occurrences(a + b, x) == Occurrences(a, x) + Occurrences(b, x)
  {
    if a == [] {
      assert a + b == b;
    } else {
      assert (a + b)[0] == a[0];
      assert (a + b)[1..] == a[1..] + b;
      OccurrencesConcat(a[1..], b, x);
    }
  }

  lemma {:induction false} OccurrencesAbsent(h: seq<HistoryEntry>, x: ObjectId)
    requires x !in EntryIds(h)
    ensures Occurrences(h, x) == 0
  {
    if h != [] {
      assert h[0] in h;
      assert EntryIds(h[1..]) <= EntryIds(h);
      OccurrencesAbsent(h[1..], x);
    }
  }

  lemma {:induction false} OccurrencesDistinct(h: seq<HistoryEntry>, x: ObjectId)
    requires EntryIdsDistinct(h)
    requires x in EntryIds(h)
    ensures Occurrences(h, x) == 1
  {
    var rest := h[1..];
    assert h == [h[0]] + rest;
    DistinctUncons(h);
    if h[0].id == x {
      OccurrencesAbsent(rest, x);
    } else {
      OccurrencesDistinct(rest, x);
    }
  }

  // ----- the properties of a whole history update -----

  /** Every current targeter has exactly one entry after the update, whatever
      the old history held, provided the maximum leaves room for all of them. */
  lemma {:induction false} TargeterKeptOnce(h: seq<HistoryEntry>, ps: seq<GameObject>, now: Timestamp, max: nat, x: ObjectId)
    requires x in ObjectIds(ps)
    requires |ObjectIds(ps)| <= max
    ensures Occurrences(Trim(RefreshAll(h, ps, now), max), x) == 1
  {
    var front := RefreshAll([], ps, now);
    var back := RemoveIds(h, ObjectIds(ps));
    RefreshSplits(h, ps, now);
    FrontHandles(ps, now);
    TrimConcat(front, back, max);
    var kept := Trim(back, max - |front|);
    PrefixLacks(kept, back, ObjectIds(ps));
    OnceInFront(front, kept, x);
  }

  /** A prefix of entries that avoid the handles `ids` avoids them too. */
  lemma PrefixLacks(r: seq<HistoryEntry>, s: seq<HistoryEntry>, ids: set<ObjectId>)
    requires r <= s
    requires forall e :: e in s ==> e.id !in ids
    ensures EntryIds(r) !! ids
  {
    PrefixElements(r, s);
  }

  lemma OnceInFront(front: seq<HistoryEntry>, kept: seq<HistoryEntry>, x: ObjectId)
    requires EntryIdsDistinct(front) && x in EntryIds(front)
    requires x !in EntryIds(kept)
    ensures Occurrences(front + kept, x) == 1
  {
    OccurrencesConcat(front, kept, x);
    OccurrencesDistinct(front, x);
    OccurrencesAbsent(kept, x);
  }

  /** Entries of handles that are not targeting now survive the update in
      their old order with their old names and timestamps; only the tail of
      them can be cut. */
  lemma {:induction false} OthersKeepOrder(h: seq<HistoryEntry>, ps: seq<GameObject>, now: Timestamp, max: nat)
    requires |ObjectIds(ps)| <= max
    ensures var r := Trim(RefreshAll(h, ps, now), max);
            var k := |ObjectIds(ps)|;
            k <= |r| && r[..k] == RefreshAll([], ps, now) && r[k..] <= RemoveIds(h, ObjectIds(ps))
  {
    var front := RefreshAll([], ps, now);
    var back := RemoveIds(h, ObjectIds(ps));
    RefreshSplits(h, ps, now);
    FrontHandles(ps, now);
    TrimConcat(front, back, max);
    var r := front + Trim(back, max - |front|);
    assert r[..|front|] == front;
    assert r[|front|..] == Trim(back, max - |front|);
  }

  /** Refreshing twice with the same targeters is refreshing once at the later
      time: a player who keeps targeting only has its timestamp renewed, and
      the rest of the history does not move. */
  lemma {:induction false} SteadyTargetersRenewTimestamps(h: seq<HistoryEntry>, ps: seq<GameObject>, t1: Timestamp, t2: Timestamp, max: nat)
    ensures Trim(RefreshAll(Trim(RefreshAll(h, ps, t1), max), ps, t2), max) == Trim(RefreshAll(h, ps, t2), max)
  {
    var ids := ObjectIds(ps);
    var f1 := RefreshAll([], ps, t1);
    var f2 := RefreshAll([], ps, t2);
    var back := RemoveIds(h, ids);
    RefreshSplits(h, ps, t1);
    RefreshSplits(h, ps, t2);
    FrontHandles(ps, t1);
    FrontHandles(ps, t2);
    var mid := Trim(f1 + back, max);
    RefreshSplits(mid, ps, t2);
    TrimAfterRefresh(f1, back, ids, max);
    TrimConcat(f2, back, max);
    TrimConcat(f2, RemoveIds(mid, ids), max);
  }

  /** What survives of a cut history once the targeters' handles are removed
      again: the cut part of the other entries. */
  lemma TrimAfterRefresh(front: seq<HistoryEntry>, back: seq<HistoryEntry>, ids: set<ObjectId>, max: nat)
    requires EntryIds(front) == ids
    requires forall e :: e in back ==> e.id !in ids
    ensures |front| <= max ==> RemoveIds(Trim(front + back, max), ids) == Trim(back, max - |front|)
    ensures |front| > max ==> RemoveIds(Trim(front + back, max), ids) == []
  {
    TrimConcat(front, back, max);
    CarriesIds(front, ids);
    if |front| <= max {
      RemoveFrontKeepRest(front, Trim(back, max - |front|), back, ids);
    } else {
      CarriesIds(front[..max], ids);
      RemoveIdsEvery(front[..max], ids);
    }
  }

  lemma CarriesIds(h: seq<HistoryEntry>, ids: set<ObjectId>)
    requires EntryIds(h) <= ids
    ensures forall e :: e in h ==> e.id in ids
  {
    forall e | e in h ensures e.id in ids {
      assert e.id in EntryIds(h);
    }
  }

  lemma RemoveFrontKeepRest(front: seq<HistoryEntry>, kept: seq<HistoryEntry>, back: seq<HistoryEntry>, ids: set<ObjectId>)
    requires forall e :: e in front ==> e.id in ids
    requires forall e :: e in back ==> e.id !in ids
    requires kept <= back
    ensures RemoveIds(front + kept, ids) == kept
  {
    PrefixElements(kept, back);
    RemoveIdsConcat(front, kept, ids);
    RemoveIdsEvery(front, ids);
    RemoveIdsNone(kept, ids);
  }

  /** Worked example: with room for two entries, X, Y and Z targeting in
      that order leave [Z, Y] (X is cut). */
  lemma ThreeTargetersTwoSlots(x: GameObject, y: GameObject, z: GameObject, now: Timestamp)
    requires ObjectIdsDistinct([x, y, z])
    ensures Trim(RefreshAll([], [x, y, z], now), 2) == [EntryFor(z, now), EntryFor(y, now)]
  {
    FrontIsReversed([x, y, z], now);
  }
}
