/** The coordination service as the lease locks use it: a string map with
    set-if-absent, refresh-expiry, the atomic GET-compare-DEL script, and the
    environment's lapse of a key whose time-to-live ran out.  Time-to-live
    values are not kept: expiry is the separate Lapse step. */
module KvStore {

  type Kv = map<string, string>

  /** The store after a request, and the request's reply. */
  datatype Reply = Reply(kv: Kv, ok: bool)

  /** SET key value NX: writes only an absent key. */
  function SetNXStep(kv: Kv, key: string, value: string): (r: Reply)
    ensures r.ok <==> key !in kv
    ensures r.ok ==> r.kv == kv[key := value]
    ensures !r.ok ==> r.kv == kv
  {
    if key in kv then Reply(kv, false) else Reply(kv[key := value], true)
  }

  /** EXPIRE key ttl: true exactly when the key exists; the map is unchanged. */
  function ExpireStep(kv: Kv, key: string): (ok: bool)
  {
    key in kv
  }

  /** The release script: `if GET(key) == token then DEL(key) else 0`. */
  function CompareAndDelete(kv: Kv, key: string, token: string): (r: Reply)
    ensures r.ok <==> key in kv && kv[key] == token
    ensures r.ok ==> r.kv == kv - {key}
    ensures !r.ok ==> r.kv == kv
  {
    if key in kv && kv[key] == token then Reply(kv - {key}, true) else Reply(kv, false)
  }

  /** SetNX never changes a key that is present. */
  lemma SetNXKeepsPresent(kv: Kv, key: string, value: string)
    ensures forall k :: k in kv ==> k in SetNXStep(kv, key, value).kv && SetNXStep(kv, key, value).kv[k] == kv[k]
    ensures SetNXStep(kv, key, value).kv.Keys == kv.Keys + {key}
  {
  }

  /** The script only deletes, and never a key that holds another token. */
  lemma CompareAndDeleteSparesOthers(kv: Kv, key: string, token: string)
    ensures forall k :: k in CompareAndDelete(kv, key, token).kv ==>
      k in kv && CompareAndDelete(kv, key, token).kv[k] == kv[k]
    ensures forall k :: k in kv && kv[k] != token ==>
      k in CompareAndDelete(kv, key, token).kv && CompareAndDelete(kv, key, token).kv[k] == kv[k]
  {
  }

  /** Two stores that agree away from `key` agree once `key` is written. */
  lemma WriteOverDifference(a: Kv, b: Kv, key: string, value: string)
    requires a - {key} == b - {key}
    ensures a[key := value] == b[key := value]
  {
    forall k | k != key
      ensures (k in a <==> k in b) && (k in a ==> a[k] == b[k])
    {
      assert k in a <==> k in a - {key};
      assert k in b <==> k in b - {key};
      if k in a {
        assert a[k] == (a - {key})[k];
        assert b[k] == (b - {key})[k];
      }
    }
  }

  class Store {
    var kv: Kv

    constructor (kv: Kv)
      ensures this.kv == kv
    {
      this.kv := kv;
    }

    method SetNX(key: string, value: string, ttl: int) returns (ok: bool)
      modifies this
      ensures Reply(kv, ok) == SetNXStep(old(kv), key, value)
    {
      ok := key !in kv;
      if ok {
        kv := kv[key := value];
      }
    }

    method Expire(key: string, ttl: int) returns (ok: bool)
      ensures ok == ExpireStep(kv, key)
    {
      ok := key in kv;
    }

    /** EvalSha of the release script. */
    method EvalCompareAndDelete(key: string, token: string) returns (deleted: bool)
      modifies this
      ensures Reply(kv, deleted) == CompareAndDelete(old(kv), key, token)
    {
      deleted := key in kv && kv[key] == token;
      if deleted {
        kv := kv - {key};
      }
    }

    /** The environment: the key's time-to-live ran out, or another process
        deleted it. */
    method Lapse(key: string)
      modifies this
      ensures kv == old(kv) - {key}
    {
      kv := kv - {key};
    }
  }
}
