/**
 * The object store's versioning as Cloud Storage does it: every create starts a new
 * generation of the object, and the metageneration counts the metadata writes within
 * one generation, starting again at 1. The lock conditions its requests on the
 * metageneration alone; this module shows that such a condition can accept a stale
 * request after the object was deleted and re-created, and that conditioning on the
 * pair (generation, metageneration) refuses it. ObjectStore's single version counter,
 * which never repeats, stands for that pair in the rest of the model.
 */
module GcsGenerations {
  import opened Wrappers
  import ObjectStore

  /** An object: the generation it was created as, its metageneration, and the lock's metadata. */
  datatype Blob = Blob(generation: nat, metageneration: nat, identity: string, expiration: int)

  /** One bucket; `lastGeneration` is the last generation number handed out. */
  datatype Bucket = Bucket(objects: map<string, Blob>, lastGeneration: nat)

  datatype Answer = Answer(bucket: Bucket, status: ObjectStore.Status)

  /** Generations come from the bucket's counter, and metagenerations start at 1. */
  ghost predicate Valid(b: Bucket) {
    forall name :: name in b.objects ==>
      b.objects[name].generation <= b.lastGeneration && b.objects[name].metageneration >= 1
  }

  /**
   * `c` is a later state of `b`: every object of `c` is either a later metadata
   * version of the same generation, unchanged unless its metageneration moved on,
   * or a generation created after `b`.
   */
  ghost predicate Later(b: Bucket, c: Bucket) {
    && b.lastGeneration <= c.lastGeneration
    && forall name :: name in c.objects ==>
         || (&& name in b.objects
             && c.objects[name].generation == b.objects[name].generation
             && c.objects[name].metageneration >= b.objects[name].metageneration
             && (c.objects[name].metageneration == b.objects[name].metageneration ==> c.objects[name] == b.objects[name]))
         || c.objects[name].generation > b.lastGeneration
  }

  lemma LaterTransitive(b: Bucket, c: Bucket, d: Bucket)
    requires Later(b, c) && Later(c, d)
    ensures Later(b, d)
  {
  }

  /** `upload_from_string(if_generation_match=0)`: create a new generation, metageneration 1. */
  function Upload(b: Bucket, name: string, identity: string, expiration: int): (r: Answer)
    ensures r.status == ObjectStore.Done <==> name !in b.objects
    ensures r.status == ObjectStore.Done ==>
      && r.bucket.lastGeneration == b.lastGeneration + 1
      && r.bucket.objects == b.objects[name := Blob(r.bucket.lastGeneration, 1, identity, expiration)]
    ensures r.status != ObjectStore.Done ==> r.status == ObjectStore.PreconditionFailed && r.bucket == b
    ensures Later(b, r.bucket) && (Valid(b) ==> Valid(r.bucket))
  {
    if name in b.objects then Answer(b, ObjectStore.PreconditionFailed)
    else
      var g := b.lastGeneration + 1;
      Answer(Bucket(b.objects[name := Blob(g, 1, identity, expiration)], g), ObjectStore.Done)
  }

  /** A metadata write: same generation, next metageneration. */
  function Rewrite(b: Bucket, name: string, identity: string, expiration: int): (c: Bucket)
    requires name in b.objects
    ensures c.lastGeneration == b.lastGeneration
    ensures c.objects == b.objects[name := Blob(b.objects[name].generation, b.objects[name].metageneration + 1, identity, expiration)]
    ensures Later(b, c) && (Valid(b) ==> Valid(c))
  {
    var o := b.objects[name];
    Bucket(b.objects[name := Blob(o.generation, o.metageneration + 1, identity, expiration)], b.lastGeneration)
  }

  // ---------------------------------------------------------------------------
  // As the lock sends them: conditioned on the metageneration only

  /** `patch(if_metageneration_match=expected)`; `None` sends no condition. */
  function PatchByMetageneration(b: Bucket, name: string, identity: string, expiration: int, expected: Option<nat>): (r: Answer)
    ensures r.status == ObjectStore.NotFound <==> name !in b.objects
    ensures r.status == ObjectStore.Done <==>
      name in b.objects && (expected.None? || expected.value == b.objects[name].metageneration)
    ensures r.status == ObjectStore.Done ==> r.bucket == Rewrite(b, name, identity, expiration)
    ensures r.status != ObjectStore.Done ==> r.bucket == b
    ensures Later(b, r.bucket) && (Valid(b) ==> Valid(r.bucket))
  {
    if name !in b.objects then Answer(b, ObjectStore.NotFound)
    else if expected.Some? && expected.value != b.objects[name].metageneration then Answer(b, ObjectStore.PreconditionFailed)
    else Answer(Rewrite(b, name, identity, expiration), ObjectStore.Done)
  }

  /** `delete(if_metageneration_match=expected)`; `None` sends no condition. */
  function DeleteByMetageneration(b: Bucket, name: string, expected: Option<nat>): (r: Answer)
    ensures r.status == ObjectStore.NotFound <==> name !in b.objects
    ensures r.status == ObjectStore.Done <==>
      name in b.objects && (expected.None? || expected.value == b.objects[name].metageneration)
    ensures r.status == ObjectStore.Done ==> r.bucket == Bucket(b.objects - {name}, b.lastGeneration)
    ensures r.status != ObjectStore.Done ==> r.bucket == b
    ensures Later(b, r.bucket) && (Valid(b) ==> Valid(r.bucket))
  {
    if name !in b.objects then Answer(b, ObjectStore.NotFound)
    else if expected.Some? && expected.value != b.objects[name].metageneration then Answer(b, ObjectStore.PreconditionFailed)
    else Answer(Bucket(b.objects - {name}, b.lastGeneration), ObjectStore.Done)
  }

  /**
   * The metageneration repeats: holder A creates the lock and sleeps past its ttl,
   * contender B reclaims the expired object with A's metageneration and creates its
   * own, and A's renewal with the metageneration it last saw is accepted and
   * overwrites B's lease, although the object was re-created since A read it.
   */
  lemma StalePatchAcceptedAfterRecreate()
    ensures var a := Upload(Bucket(map[], 0), "lock", "A", 100).bucket;
      var d := DeleteByMetageneration(a, "lock", Some(a.objects["lock"].metageneration)).bucket;
      var c := Upload(d, "lock", "B", 500).bucket;
      var p := PatchByMetageneration(c, "lock", "A", 200, Some(a.objects["lock"].metageneration));
      && Valid(a) && Later(a, c) && c.objects["lock"] != a.objects["lock"]
      && p.status == ObjectStore.Done
      && p.bucket.objects["lock"].identity == "A"
  {
    var a := Upload(Bucket(map[], 0), "lock", "A", 100).bucket;
    assert a.objects["lock"] == Blob(1, 1, "A", 100);
    var d := DeleteByMetageneration(a, "lock", Some(1)).bucket;
    assert d.objects == map[] && d.lastGeneration == 1;
    var c := Upload(d, "lock", "B", 500).bucket;
    assert c.objects["lock"] == Blob(2, 1, "B", 500);
  }

  // ---------------------------------------------------------------------------
  // Corrected: conditioned on generation and metageneration together

  /** What identifies one written state of an object. */
  datatype Token = Token(generation: nat, metageneration: nat)

  function TokenOf(o: Blob): (t: Token)
    ensures t.generation == o.generation && t.metageneration == o.metageneration
  {
    Token(o.generation, o.metageneration)
  }

  /** `patch(if_generation_match=g, if_metageneration_match=m)`; `None` sends no condition. */
  function PatchByToken(b: Bucket, name: string, identity: string, expiration: int, expected: Option<Token>): (r: Answer)
    ensures r.status == ObjectStore.NotFound <==> name !in b.objects
    ensures r.status == ObjectStore.Done <==>
      name in b.objects && (expected.None? || expected.value == TokenOf(b.objects[name]))
    ensures r.status == ObjectStore.Done ==> r.bucket == Rewrite(b, name, identity, expiration)
    ensures r.status != ObjectStore.Done ==> r.bucket == b
    ensures Later(b, r.bucket) && (Valid(b) ==> Valid(r.bucket))
  {
    if name !in b.objects then Answer(b, ObjectStore.NotFound)
    else if expected.Some? && expected.value != TokenOf(b.objects[name]) then Answer(b, ObjectStore.PreconditionFailed)
    else Answer(Rewrite(b, name, identity, expiration), ObjectStore.Done)
  }

  /** `delete(if_generation_match=g, if_metageneration_match=m)`; `None` sends no condition. */
  function DeleteByToken(b: Bucket, name: string, expected: Option<Token>): (r: Answer)
    ensures r.status == ObjectStore.NotFound <==> name !in b.objects
    ensures r.status == ObjectStore.Done <==>
      name in b.objects && (expected.None? || expected.value == TokenOf(b.objects[name]))
    ensures r.status == ObjectStore.Done ==> r.bucket == Bucket(b.objects - {name}, b.lastGeneration)
    ensures r.status != ObjectStore.Done ==> r.bucket == b
    ensures Later(b, r.bucket) && (Valid(b) ==> Valid(r.bucket))
  {
    if name !in b.objects then Answer(b, ObjectStore.NotFound)
    else if expected.Some? && expected.value != TokenOf(b.objects[name]) then Answer(b, ObjectStore.PreconditionFailed)
    else Answer(Bucket(b.objects - {name}, b.lastGeneration), ObjectStore.Done)
  }

  /**
   * The pair is a fencing token: once the object was rewritten or re-created after
   * `b`, a patch or delete presenting the pair it had in `b` is refused.
   */
  lemma StaleTokenRefused(b: Bucket, c: Bucket, name: string, identity: string, expiration: int)
    requires Valid(b) && Later(b, c)
    requires name in b.objects && name in c.objects && c.objects[name] != b.objects[name]
    ensures PatchByToken(c, name, identity, expiration, Some(TokenOf(b.objects[name]))).status == ObjectStore.PreconditionFailed
    ensures DeleteByToken(c, name, Some(TokenOf(b.objects[name]))).status == ObjectStore.PreconditionFailed
  {
    var o, n := b.objects[name], c.objects[name];
    if n.generation == o.generation {
      assert n.metageneration > o.metageneration;
    } else {
      assert n.generation > b.lastGeneration >= o.generation;
    }
  }

  /** The counterexample of the metageneration-only condition is refused with the pair. */
  lemma RecreatedLockRefusesStaleToken()
    ensures var a := Upload(Bucket(map[], 0), "lock", "A", 100).bucket;
      var d := DeleteByToken(a, "lock", Some(TokenOf(a.objects["lock"]))).bucket;
      var c := Upload(d, "lock", "B", 500).bucket;
      var p := PatchByToken(c, "lock", "A", 200, Some(TokenOf(a.objects["lock"])));
      && p.status == ObjectStore.PreconditionFailed && p.bucket == c
  {
    var a := Upload(Bucket(map[], 0), "lock", "A", 100).bucket;
    var d := DeleteByToken(a, "lock", Some(TokenOf(a.objects["lock"]))).bucket;
    var c := Upload(d, "lock", "B", 500).bucket;
    StaleTokenRefused(a, c, "lock", "A", 200);
  }
}
