/** The two searches the login path runs over shared server state before it admits a
    player: the smallest free entity id, and a registered identity that shares the new
    player's name or UUID. */
module Registry {
  import opened Protocol

  predicate SameNameOrUuid(a: NameUuid, b: NameUuid) {
    a.name == b.name || a.uuid == b.uuid
  }

  /** No two registered identities share a name, and none share a UUID. */
  ghost predicate UniqueIdentities(keys: set<NameUuid>) {
    forall a, b :: a in keys && b in keys && a != b ==> a.name != b.name && a.uuid != b.uuid
  }

  ghost predicate Conflicts(keys: set<NameUuid>, id: NameUuid) {
    exists k :: k in keys && SameNameOrUuid(k, id)
  }

  /** `id` is the smallest 32-bit value, counting up from the minimum, that `ids` does
      not hold. */
  ghost predicate SmallestFree(ids: set<int>, id: int) {
    && I32Min <= id
    && id !in ids
    && forall k :: I32Min <= k < id ==> k in ids
  }

  /** The entity-id search: start at the smallest 32-bit value and count up while the
      value is taken. */
  method FirstFreeId(ids: set<int>) returns (id: int)
    ensures SmallestFree(ids, id)
  {
    id := I32Min;
    while id in ids
      invariant I32Min <= id
      invariant forall k :: I32Min <= k < id ==> k in ids
      decreases |set k | k in ids && k >= id|
    {
      ghost var above := set k | k in ids && k >= id;
      ghost var beyond := set k | k in ids && k >= id + 1;
      assert above == beyond + {id};
      id := id + 1;
    }
  }

  /** The duplicate scan: visit the registered identities in the map's (unspecified)
      order and stop at the first that shares the name or the UUID. */
  method FindConflict(keys: set<NameUuid>, id: NameUuid) returns (found: bool)
    ensures found <==> Conflicts(keys, id)
  {
    var remaining := keys;
    while remaining != {}
      invariant remaining <= keys
      invariant forall k :: k in keys - remaining ==> !SameNameOrUuid(k, id)
      decreases |remaining|
    {
      var k :| k in remaining;
      if SameNameOrUuid(k, id) {
        return true;
      }
      remaining := remaining - {k};
    }
    return false;
  }

  /** Adding an identity to a registry without duplicates keeps it without duplicates
      exactly when the identity shares neither name nor UUID with any registered one. */
  lemma InsertKeepsUnique(keys: set<NameUuid>, id: NameUuid)
    requires UniqueIdentities(keys) && id !in keys
    ensures UniqueIdentities(keys + {id}) <==> !Conflicts(keys, id)
  {
    if Conflicts(keys, id) {
      var k :| k in keys && SameNameOrUuid(k, id);
      assert k != id;
    }
  }

  /** An id that stays reserved after its login was turned away is skipped by every
      later search: the next id handed out is larger. */
  lemma LeakedIdSkipped(ids: set<int>, leaked: int, next: int)
    requires SmallestFree(ids, leaked) && SmallestFree(ids + {leaked}, next)
    ensures leaked < next
  {
  }
}
