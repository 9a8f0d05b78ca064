/** The bbolt-backed key-value store, with its default bucket as a map. */
module KvStore {
  import opened Wrappers
  import opened KvTypes

  const EmptyKeyReason: string := "key cannot be empty"
  const SetFailedPrefix: string := "failed to set key "

  class BoltStore {
    /** The contents of the default bucket, when it exists. */
    var bucket: map<string, string>
    /** Whether the default bucket exists. */
    var hasBucket: bool
    /** Whether the store handle is set (`b.store != nil`). */
    var hasStore: bool
    /** Whether `Close` has been called on the store handle. */
    var closed: bool

    /** A store whose default bucket was created by `initBucket`. */
    constructor ()
      ensures bucket == map[] && hasBucket && hasStore && !closed
    {
      bucket := map[];
      hasBucket := true;
      hasStore := true;
      closed := false;
    }

    /** Stores `value` under `key`: an empty key is refused before the store is
        touched, a missing bucket is an error, a refused `Put` is wrapped with
        the key, and otherwise exactly that key changes. `putError` is what
        bbolt's `Put` reports (it refuses, for instance, a key longer than
        32768 bytes). */
    method Set(key: string, value: string, putError: Option<string>) returns (r: Outcome<KvError>)
      modifies this`bucket
      ensures key == [] ==> r == Fail(InvalidKey(key, EmptyKeyReason)) && bucket == old(bucket)
      ensures key != [] && !hasBucket ==> r == Fail(BucketNotFound) && bucket == old(bucket)
      ensures key != [] && hasBucket && putError.Some? ==>
                r == Fail(Failed(SetFailedPrefix + key + ": " + putError.value)) && bucket == old(bucket)
      ensures key != [] && hasBucket && putError.None? ==> r == Pass && bucket == old(bucket)[key := value]
    {
      if key == [] {
        return Fail(InvalidKey(key, EmptyKeyReason));
      }
      if !hasBucket {
        return Fail(BucketNotFound);
      }
      if putError.Some? {
        return Fail(Failed(SetFailedPrefix + key + ": " + putError.value));
      }
      bucket := bucket[key := value];
      return Pass;
    }

    /** Reads the value under `key`, or says why there is none. */
    method Get(key: string) returns (r: Result<string, KvError>)
      ensures key == [] ==> r == Err(InvalidKey(key, EmptyKeyReason))
      ensures key != [] && !hasBucket ==> r == Err(BucketNotFound)
      ensures key != [] && hasBucket && key !in bucket ==> r == Err(NotFound(key))
      ensures key != [] && hasBucket && key in bucket ==> r == Ok(bucket[key])
      ensures r.Err? && Is(r.error, ErrNotFound) ==> key !in bucket
    {
      if key == [] {
        return Err(InvalidKey(key, EmptyKeyReason));
      }
      if !hasBucket {
        return Err(BucketNotFound);
      }
      if key !in bucket {
        return Err(NotFound(key));
      }
      var v := bucket[key];
      return Ok(v);
    }

    /** Removes `key`; removing an absent key succeeds and changes nothing. */
    method Delete(key: string) returns (r: Outcome<KvError>)
      modifies this`bucket
      ensures key == [] ==> r == Fail(InvalidKey(key, EmptyKeyReason)) && bucket == old(bucket)
      ensures key != [] && !hasBucket ==> r == Fail(BucketNotFound) && bucket == old(bucket)
      ensures key != [] && hasBucket ==> r == Pass && bucket == old(bucket) - {key}
    {
      if key == [] {
        return Fail(InvalidKey(key, EmptyKeyReason));
      }
      if !hasBucket {
        return Fail(BucketNotFound);
      }
      bucket := bucket - {key};
      return Pass;
    }

    /** Closes the store handle; without one there is nothing to close and the
        result is success. `underlying` is what closing the handle reports. */
    method Close(underlying: Outcome<KvError>) returns (r: Outcome<KvError>)
      modifies this`closed
      ensures !hasStore ==> r == Pass && closed == old(closed)
      ensures hasStore ==> r == underlying && closed
    {
      if hasStore {
        closed := true;
        return underlying;
      }
      return Pass;
    }

    /** A read after a write returns the written value when `Put` accepts
        it; when `Put` refuses it, the read sees the key as it was. */
    method SetThenGet(key: string, value: string, putError: Option<string>) returns (got: Result<string, KvError>)
      requires hasBucket
      modifies this`bucket
      ensures key == [] ==> got == Err(InvalidKey(key, EmptyKeyReason))
      ensures key != [] && putError.None? ==> got == Ok(value) && bucket == old(bucket)[key := value]
      ensures key != [] && putError.Some? ==>
                bucket == old(bucket)
                && got == (if key in old(bucket) then Ok(old(bucket)[key]) else Err(NotFound(key)))
    {
      var _ := Set(key, value, putError);
      got := Get(key);
    }

    /** After a delete the key is not found, and every other key keeps its value. */
    method DeleteThenGet(key: string, other: string) returns (got: Result<string, KvError>, otherGot: Result<string, KvError>)
      requires hasBucket && key != [] && other != [] && other != key
      modifies this`bucket
      ensures got == Err(NotFound(key))
      ensures other in old(bucket) ==> otherGot == Ok(old(bucket)[other])
      ensures other !in old(bucket) ==> otherGot == Err(NotFound(other))
    {
      var _ := Delete(key);
      got := Get(key);
      otherGot := Get(other);
    }
  }
}
