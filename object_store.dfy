/**
 * The object store the lock lives in, reduced to what the lock uses: one bucket
 * mapping object names to the lock object's user metadata and its version token
 * (the metageneration), with compare-and-swap on that token.
 */
module ObjectStore {
  import opened Wrappers

  /** The lock object: its version token and the metadata the lock writes. */
  datatype Record = Record(version: nat, identity: string, expiration: int)

  /** One bucket; `lastVersion` is the last version token the store handed out. */
  datatype Store = Store(objects: map<string, Record>, lastVersion: nat)

  /** How a store request ends: success, a failed precondition, or a missing object. */
  datatype Status = Done | PreconditionFailed | NotFound

  datatype Reply = Reply(store: Store, status: Status)

  /**
   * What other processes may do to the lock object between two of our requests:
   * nothing, delete it, or write it (create it or renew it) under a fresh version.
   */
  datatype Rival = Quiet | Removes | Writes(identity: string, expiration: int)

  /** No object carries a version the store has not handed out yet. */
  ghost predicate Valid(s: Store) {
    forall name :: name in s.objects ==> s.objects[name].version <= s.lastVersion
  }

  /**
   * `t` is a later state of `s`: every object of `t` is either untouched or was
   * written after `s`, under a version `s` had not handed out.
   */
  ghost predicate Later(s: Store, t: Store) {
    && s.lastVersion <= t.lastVersion
    && forall name :: name in t.objects ==>
         (name in s.objects && t.objects[name] == s.objects[name]) || t.objects[name].version > s.lastVersion
  }

  /** `get_blob`: the object's metadata, or None. */
  function Get(s: Store, name: string): (r: Option<Record>)
    ensures r.Some? <==> name in s.objects
    ensures r.Some? ==> r.value == s.objects[name]
  {
    if name in s.objects then Some(s.objects[name]) else None
  }

  /** A successful write: the object gets the given metadata under the next version token. */
  function Put(s: Store, name: string, identity: string, expiration: int): (t: Store)
    ensures Later(s, t) && (Valid(s) ==> Valid(t))
    ensures t.lastVersion == s.lastVersion + 1
    ensures name in t.objects && t.objects[name] == Record(t.lastVersion, identity, expiration)
    ensures forall other :: other != name ==> Get(t, other) == Get(s, other)
  {
    var v := s.lastVersion + 1;
    Store(s.objects[name := Record(v, identity, expiration)], v)
  }

  /** Whether the object's version satisfies `if_metageneration_match` (None matches everything). */
  predicate Matches(s: Store, name: string, expected: Option<nat>)
    requires name in s.objects
  {
    expected.None? || expected.value == s.objects[name].version
  }

  /** `upload_from_string(..., if_generation_match=0)`: create the object only if it is absent. */
  function Create(s: Store, name: string, identity: string, expiration: int): (r: Reply)
    ensures r.status == Done <==> name !in s.objects
    ensures r.status != Done ==> r.status == PreconditionFailed && r.store == s
    ensures r.status == Done ==>
      && r.store.lastVersion == s.lastVersion + 1
      && Get(r.store, name) == Some(Record(r.store.lastVersion, identity, expiration))
      && forall other :: other != name ==> Get(r.store, other) == Get(s, other)
    ensures Later(s, r.store) && (Valid(s) ==> Valid(r.store))
  {
    if name in s.objects then Reply(s, PreconditionFailed)
    else Reply(Put(s, name, identity, expiration), Done)
  }

  /** `patch(if_metageneration_match=expected)`: rewrite the metadata if the version matches. */
  function Patch(s: Store, name: string, identity: string, expiration: int, expected: Option<nat>): (r: Reply)
    ensures r.status == NotFound <==> name !in s.objects
    ensures r.status == Done <==> name in s.objects && Matches(s, name, expected)
    ensures r.status != Done ==> r.store == s
    ensures r.status == Done ==>
      && r.store.lastVersion == s.lastVersion + 1
      && Get(r.store, name) == Some(Record(r.store.lastVersion, identity, expiration))
      && forall other :: other != name ==> Get(r.store, other) == Get(s, other)
    ensures Later(s, r.store) && (Valid(s) ==> Valid(r.store))
  {
    if name !in s.objects then Reply(s, NotFound)
    else if !Matches(s, name, expected) then Reply(s, PreconditionFailed)
    else Reply(Put(s, name, identity, expiration), Done)
  }

  /** `delete(if_metageneration_match=expected)`: remove the object if the version matches. */
  function Delete(s: Store, name: string, expected: Option<nat>): (r: Reply)
    ensures r.status == NotFound <==> name !in s.objects
    ensures r.status == Done <==> name in s.objects && Matches(s, name, expected)
    ensures r.status != Done ==> r.store == s
    ensures r.status == Done ==> r.store.objects == s.objects - {name} && r.store.lastVersion == s.lastVersion
    ensures Later(s, r.store) && (Valid(s) ==> Valid(r.store))
  {
    if name !in s.objects then Reply(s, NotFound)
    else if !Matches(s, name, expected) then Reply(s, PreconditionFailed)
    else Reply(Store(s.objects - {name}, s.lastVersion), Done)
  }

  /** What another process's request does to the lock object. */
  function Interfere(s: Store, name: string, rival: Rival): (t: Store)
    ensures Later(s, t) && (Valid(s) ==> Valid(t))
    ensures forall other :: other != name ==> Get(t, other) == Get(s, other)
  {
    match rival
    case Quiet => s
    case Removes => Store(s.objects - {name}, s.lastVersion)
    case Writes(identity, expiration) => Put(s, name, identity, expiration)
  }

  lemma LaterTransitive(s: Store, t: Store, u: Store)
    requires Later(s, t) && Later(t, u)
    ensures Later(s, u)
  {
  }

  /**
   * The version token is a fencing token: once the object has been written or
   * re-created after `s`, a conditional patch or delete presenting the version the
   * object had in `s` is refused, whatever happened in between.
   */
  lemma StaleVersionRefused(s: Store, t: Store, name: string, identity: string, expiration: int)
    requires Valid(s) && Later(s, t)
    requires name in s.objects && name in t.objects && t.objects[name] != s.objects[name]
    ensures Patch(t, name, identity, expiration, Some(s.objects[name].version)).status == PreconditionFailed
    ensures Delete(t, name, Some(s.objects[name].version)).status == PreconditionFailed
  {
    assert t.objects[name].version > s.lastVersion >= s.objects[name].version;
  }
}
