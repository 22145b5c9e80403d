/**
 A single Redis primary: keys with values and expiry times, and one clock in milliseconds.
 Each operation below is one atomic command or one Lua script.
 */
module Redis {
  import opened Wrappers

  datatype Entry<+V> = Entry(value: V, expiresAt: int)

  datatype Store<V(==)> = Store(entries: map<string, Entry<V>>, now: int) {

    predicate Live(key: string) {
      key in entries && now < entries[key].expiresAt
    }

    /** `GET key` */
    function Get(key: string): Option<V> {
      if Live(key) then Some(entries[key].value) else None
    }

    predicate Holds(key: string, value: V) {
      Get(key) == Some(value)
    }

    /** `SET key value PX ttl` */
    function Set(key: string, value: V, ttlMs: int): Store<V> {
      this.(entries := entries[key := Entry(value, now + ttlMs)])
    }

    /** `SET key value PX ttl NX`; it is answered OK when the key was free. */
    function SetNx(key: string, value: V, ttlMs: int): Store<V> {
      if Live(key) then this else Set(key, value, ttlMs)
    }

    /** `DEL key` */
    function Del(key: string): Store<V> {
      this.(entries := entries - {key})
    }

    /** The releaseLock script: delete the key if it holds `value`. */
    function CompareAndDelete(key: string, value: V): Store<V> {
      if Holds(key, value) then Del(key) else this
    }

    /** The extendLock script: set a new lifetime if the key holds `value`; PEXPIRE with none left deletes. */
    function CompareAndExtend(key: string, value: V, ttlMs: int): Store<V> {
      if !Holds(key, value) then this
      else if ttlMs <= 0 then Del(key)
      else Set(key, value, ttlMs)
    }

    function Elapse(ms: nat): Store<V> {
      this.(now := now + ms)
    }
  }
}
