/** The key-value store in flash, as far as configuration and host keys use it. The store itself
  is not part of the repository; its contract is assumed to be the one stated here. */
module KeyValueStores {
  import opened CStrings

  /** Object names; the strings are "hostname", "ssh.username", "ssh.hostpub", "ssh.hostpriv". */
  datatype ObjectId = Hostname | SshUsername | SshHostPub | SshHostPriv | OtherObject(name: string)

  /** What a reader of a string object gets that has a default for a missing one. */
  function LookupOr(objects: map<ObjectId, Bytes>, key: ObjectId, default: Bytes): Bytes {
    if key in objects then objects[key] else default
  }

  class KeyValueStore {
    var objects: map<ObjectId, Bytes>

    constructor (objects: map<ObjectId, Bytes>)
      ensures this.objects == objects
    {
      this.objects := objects;
    }

    /** `works` says whether the flash takes the write. A failed write changes nothing. */
    method StoreObject(key: ObjectId, value: Bytes, works: bool) returns (ok: bool)
      modifies this
      ensures ok == works
      ensures objects == if ok then old(objects)[key := value] else old(objects)
    {
      ok := works;
      if ok {
        objects := objects[key := value];
      }
    }

    /** After success a lookup with the default yields the value, whether or not that took a
      write; other objects are not affected. */
    method StoreStringObjectIfNecessary(key: ObjectId, value: Bytes, default: Bytes, works: bool) returns (ok: bool)
      modifies this
      ensures works ==> ok
      ensures LookupOr(objects, key, default) == if ok then value else old(LookupOr(objects, key, default))
      ensures !ok ==> objects == old(objects)
      ensures forall k :: k != key ==>
                (k in objects <==> k in old(objects)) && (k in objects ==> objects[k] == old(objects[k]))
    {
      if LookupOr(objects, key, default) == value {
        return true;
      }
      ok := StoreObject(key, value, works);
    }

    method RemoveObject(key: ObjectId)
      modifies this
      ensures objects == old(objects) - {key}
    {
      objects := objects - {key};
    }

    /** The object if it exists, whatever its length; a caller's size limit plays no part. */
    method ReadObject(key: ObjectId) returns (found: bool, value: Bytes)
      ensures found == (key in objects)
      ensures found ==> value == objects[key]
    {
      found := key in objects;
      value := if found then objects[key] else [];
    }
  }
}
