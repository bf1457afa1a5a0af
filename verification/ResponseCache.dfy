/**
 The response cache: rendered responses by (object, id, tier), bounded and
 expiring, over the same map-plus-list table as the record cache.
 */
module ResponseCache {
  import opened Common
  import opened Lru
  import opened Redaction

  datatype ObjectClass = Help | DomainClass | EntityClass | NameserverClass | IpClass

  datatype Key = Key(objectClass: ObjectClass, id: string, tier: Tier)

  datatype Stored<B> = Stored(body: B, status: int, headers: map<string, string>, expires: int)

  type Shelf<B> = seq<Entry<Key, Stored<B>>>

  /** What Get finds: nothing when disabled, absent or expired. */
  function Found<B>(s: Shelf<B>, capacity: nat, k: Key, now: int): Option<Stored<B>> {
    if capacity == 0 then None
    else
      var e := Lookup(s, k);
      if e.Some? && now > e.value.expires then None else e
  }

  function AfterGet<B>(s: Shelf<B>, capacity: nat, k: Key, now: int): Shelf<B> {
    if capacity == 0 then s
    else
      var e := Lookup(s, k);
      if e.Some? && now > e.value.expires then Drop(s, k) else Touch(s, k)
  }

  function AfterPut<B>(s: Shelf<B>, capacity: nat, ttl: int, k: Key, body: B, status: int,
                       headers: map<string, string>, now: int): Shelf<B> {
    if capacity == 0 then s else Store(s, k, Stored(body, status, headers, now + ttl), capacity)
  }

  class Cache<B> {
    const table: Table<Key, Stored<B>>
    const ttl: int

    ghost predicate Valid()
      reads this, table
    {
      table.Valid()
    }

    ghost function View(): Shelf<B>
      requires Valid()
      reads this, table
    {
      table.View()
    }

    constructor (size: nat, ttl: int)
      ensures Valid() && fresh(table) && View() == [] && table.capacity == size && this.ttl == ttl
    {
      table := new Table(size);
      this.ttl := ttl;
    }

    method Get(k: Key, now: int) returns (r: Option<Stored<B>>)
      requires Valid()
      modifies table
      ensures Valid()
      ensures r == Found(old(View()), table.capacity, k, now)
      ensures View() == AfterGet(old(View()), table.capacity, k, now)
    {
      if table.capacity == 0 {
        return None;
      }
      r := table.Peek(k);
      if r.Some? && now > r.value.expires {
        table.Remove(k);
        return None;
      }
      r := table.Get(k);
    }

    method Put(k: Key, body: B, status: int, headers: map<string, string>, now: int)
      requires Valid()
      modifies table
      ensures Valid()
      ensures View() == AfterPut(old(View()), table.capacity, ttl, k, body, status, headers, now)
    {
      if table.capacity == 0 {
        return;
      }
      table.Put(k, Stored(body, status, headers, now + ttl));
    }
  }
}
