/** The Redis commands used by the CIE OIDC session store, and the session documents kept there.

A store maps a key to a value and the tick at which it expires. The clock is an integer, and a key is
visible while the clock is before its expiry. */
module RedisStore {
  import opened Wrappers

  /** The session document. `completed` is set by the first consume, `code` to `user` by the callback. */
  datatype Entity = Entity(
    id: string, state: string, clientId: string, providerId: string,
    code: Option<string>, accessToken: Option<string>, refreshToken: Option<string>, user: Option<string>,
    completed: bool)

  datatype Key = SessKey(id: string) | StateKey(state: string) | UsedKey(state: string)

  datatype Value = Doc(entity: Entity) | Sid(id: string) | Mark

  datatype Entry = Entry(value: Value, expiry: int)

  datatype Store = Store(keys: map<Key, Entry>, now: int)

  /** Python truthiness of an optional text. */
  predicate Truthy(o: Option<string>) {
    o.Some? && o.value != ""
  }

  /** The test by which a document is refused as already used. */
  predicate AlreadyUsed(e: Entity) {
    e.completed || Truthy(e.code) || Truthy(e.accessToken) || Truthy(e.user)
  }

  predicate Live(s: Store, k: Key) {
    k in s.keys && s.now < s.keys[k].expiry
  }

  function Get(s: Store, k: Key): Option<Value> {
    if Live(s, k) then Some(s.keys[k].value) else None
  }

  /** Remaining life of a key, or -2 when there is no such key. */
  function Ttl(s: Store, k: Key): int {
    if Live(s, k) then s.keys[k].expiry - s.now else -2
  }

  function SetEx(s: Store, k: Key, v: Value, ex: int): Store {
    s.(keys := s.keys[k := Entry(v, s.now + ex)])
  }

  /** The expiry argument computed by the callers of TTL: what is left, or the configured default. */
  function ExpiryArg(defaultTtl: int, ttl: int): int {
    if ttl > 0 then ttl else defaultTtl
  }

  /** A connection: each method is one atomic Redis command. */
  class RedisClient {
    var store: Store

    constructor (now: int)
      ensures store == Store(map[], now)
    {
      store := Store(map[], now);
    }

    method GetKey(k: Key) returns (v: Option<Value>)
      ensures v == Get(store, k)
    {
      if k in store.keys && store.now < store.keys[k].expiry {
        v := Some(store.keys[k].value);
      } else {
        v := None;
      }
    }

    method TtlOf(k: Key) returns (ttl: int)
      ensures ttl == Ttl(store, k)
    {
      ttl := -2;
      if k in store.keys && store.now < store.keys[k].expiry {
        ttl := store.keys[k].expiry - store.now;
      }
    }

    /** SET with EX. With `nx` it does nothing when the key is live, and reports whether it wrote. */
    method SetKey(k: Key, v: Value, nx: bool, ex: int) returns (written: bool)
      requires ex > 0
      modifies this
      ensures written == !(nx && Live(old(store), k))
      ensures store == if written then SetEx(old(store), k, v, ex) else old(store)
    {
      if nx && k in store.keys && store.now < store.keys[k].expiry {
        return false;
      }
      store := store.(keys := store.keys[k := Entry(v, store.now + ex)]);
      return true;
    }
  }
}
