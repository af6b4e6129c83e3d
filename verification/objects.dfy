/** Records the targeting tracker reads from the game client, and small
    sequence helpers shared by the other modules. */
module Objects {

  /** The game's 64-bit object handle (`ulong GameObjectId`). */
  newtype ObjectId = x: int | 0 <= x < 0x1_0000_0000_0000_0000

  /** Wall-clock time of a detection (`DateTime.Now`), as an opaque tick count. */
  type Timestamp = int

  datatype Option<T> = None | Some(value: T)

  /** One entry of the object table: its handle, display name, the handle of
      what it targets (`TargetObjectId`) and whether it is a player character
      (what `OfType<IPlayerCharacter>` selects). */
  datatype GameObject = GameObject(id: ObjectId, name: string, targetId: ObjectId, isPlayer: bool)

  /** One `(GameObjectId, Name, Timestamp)` tuple of the target history. */
  datatype HistoryEntry = HistoryEntry(id: ObjectId, name: string, timestamp: Timestamp)

  function ObjectIds(objects: seq<GameObject>): set<ObjectId>
  {
    set o | o in objects :: o.id
  }

  function EntryIds(entries: seq<HistoryEntry>): set<ObjectId>
  {
    set e | e in entries :: e.id
  }

  /** No two objects of the sequence share a handle. */
  predicate ObjectIdsDistinct(objects: seq<GameObject>)
  {
    forall i, j :: 0 <= i < j < |objects| ==> objects[i].id != objects[j].id
  }

  /** No two history entries share a handle. */
  predicate EntryIdsDistinct(entries: seq<HistoryEntry>)
  {
    forall i, j :: 0 <= i < j < |entries| ==> entries[i].id != entries[j].id
  }

  /** `r` can be obtained from `s` by deleting elements: the order of `s` is kept. */
  predicate Subsequence<T(==)>(r: seq<T>, s: seq<T>)
    decreases |s|
  {
    if r == [] then true
    else if s == [] then false
    else (r[0] == s[0] && Subsequence(r[1..], s[1..])) || Subsequence(r, s[1..])
  }
}
