/** An in-memory stand-in for the Google Cloud Datastore client both labs use:
    keyed entities kept in one fetch order, `put` allocating a fresh numeric id
    and `delete` removing by key. */
module Datastore {
  import opened Wrappers
  import opened Seqs
  import opened Calendar

  /** A Datastore key: its kind, its numeric id and the key it is nested under.
      `DS.key('Lab2-user', 7, 'Lab2-event', 12)` is
      `Key("Lab2-event", 12, Some(Key("Lab2-user", 7, None)))`. */
  datatype Key = Key(kind: string, id: int, parent: Option<Key>)

  /** The largest id a complete key can carry: ids are positive signed 64-bit
      integers. */
  const MaxKeyId := 0x7FFF_FFFF_FFFF_FFFF

  /** The ids a complete key may hold.  The client reads id 0 as an incomplete
      key, which `delete` refuses, and a negative id or one beyond `MaxKeyId`
      does not encode. */
  predicate IsKeyId(id: int)
  {
    1 <= id <= MaxKeyId
  }

  /** The property sets the applications write. */
  datatype Props =
    | UserProps(uname: string, passwd: string)
    | EventProps(name: string, date: Date)
    | SessionProps(token: string, expire: int)

  datatype Entity = Entity(key: Key, props: Props)

  /** `a` is the parent of `k`, or an ancestor further up; an ancestor query
      selects the entities whose key passes this test. */
  predicate HasAncestor(k: Key, a: Key)
    decreases k
  {
    match k.parent
    case None => false
    case Some(p) => p == a || HasAncestor(p, a)
  }

  /** No two stored entities share an id. */
  predicate UniqueIds(es: seq<Entity>)
  {
    forall x, y :: x in es && y in es && x.key.id == y.key.id ==> x == y
  }

  /** The test `delete(key)` keeps an entity by. */
  function KeyIsNot(key: Key): Entity -> bool
  {
    (e: Entity) => e.key != key
  }

  class Store {
    /** The stored entities, in the order a query fetches them. */
    var entities: seq<Entity>
    /** The id the next `put` of an incomplete key receives. */
    var nextId: int

    ghost predicate Valid()
      reads this
    {
      && nextId >= 1
      && (forall e :: e in entities ==> 1 <= e.key.id < nextId)
      && UniqueIds(entities)
    }

    constructor ()
      ensures Valid() && entities == []
    {
      entities := [];
      nextId := 1;
    }

    /** `DS.put` of an entity whose key has no id yet: the store gives it a fresh
        id, appends it and answers the id (`entity.id`). */
    method Put(kind: string, parent: Option<Key>, props: Props) returns (id: int)
      requires Valid()
      modifies this
      ensures Valid()
      ensures id == old(nextId) && nextId == old(nextId) + 1
      ensures entities == old(entities) + [Entity(Key(kind, id, parent), props)]
      ensures forall e :: e in old(entities) ==> e.key.id < id
    {
      id := nextId;
      entities := entities + [Entity(Key(kind, id, parent), props)];
      nextId := nextId + 1;
    }

    /** `DS.delete(key)`: every entity under that key goes and nothing else
        moves; a key nothing is stored under is not an error. */
    method Delete(key: Key)
      requires Valid()
      modifies this
      ensures Valid()
      ensures entities == Filter(old(entities), KeyIsNot(key))
      ensures nextId == old(nextId)
    {
      ghost var before := entities;
      entities := Filter(entities, KeyIsNot(key));
      forall e | e in entities ensures e in before {
        FilterMember(before, KeyIsNot(key), e);
      }
    }
  }

  /** Deleting a key the store does not hold changes nothing. */
  lemma DeleteAbsent(es: seq<Entity>, key: Key)
    requires forall e :: e in es ==> e.key != key
    ensures Filter(es, KeyIsNot(key)) == es
  {
    FilterAll(es, KeyIsNot(key));
  }

  /** With unique ids, deleting the key of a stored entity removes exactly that
      entity. */
  lemma DeleteOne(es: seq<Entity>, x: Entity)
    requires UniqueIds(es) && x in es
    ensures forall e :: e in Filter(es, KeyIsNot(x.key)) <==> e in es && e != x
  {
    forall e ensures e in Filter(es, KeyIsNot(x.key)) <==> e in es && e != x {
      FilterMember(es, KeyIsNot(x.key), e);
    }
  }

  /** The test a store passes after each key of `keys` was deleted. */
  function KeyNotIn(keys: seq<Key>): Entity -> bool
  {
    (e: Entity) => e.key !in keys
  }

  /** Deleting no key yet keeps every entity. */
  lemma NoKeysDeleted(es: seq<Entity>)
    ensures Filter(es, KeyNotIn([])) == es
  {
    FilterAll(es, KeyNotIn([]));
  }

  /** Deleting the next key of a list extends the deleted prefix by one. */
  lemma DeleteNextKey(es: seq<Entity>, keys: seq<Key>, i: nat)
    requires i < |keys|
    ensures Filter(Filter(es, KeyNotIn(keys[..i])), KeyIsNot(keys[i])) == Filter(es, KeyNotIn(keys[..i + 1]))
  {
    assert keys[..i + 1] == keys[..i] + [keys[i]];
    FilterFilter(es, KeyNotIn(keys[..i]), KeyIsNot(keys[i]), KeyNotIn(keys[..i + 1]));
  }
}
