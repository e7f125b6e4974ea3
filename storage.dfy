/** The key-value store of the item server (storage.py). The JSON file it rewrites on
    every call is the `data` map. */
module Store {

  class Storage<V> {
    var data: map<string, V>

    /** A store over a file that did not exist yet. */
    constructor ()
      ensures data == map[]
    {
      data := map[];
    }

    /** `data.get(key, default)` */
    method Get(key: string, default: V) returns (v: V)
      ensures key in data ==> v == data[key]
      ensures key !in data ==> v == default
    {
      if key in data {
        v := data[key];
      } else {
        v := default;
      }
    }

    method Set(key: string, value: V)
      modifies this
      ensures data == old(data)[key := value]
    {
      data := data[key := value];
    }

    /** Removing a missing key is not an error and changes nothing. */
    method Delete(key: string)
      modifies this
      ensures data == old(data) - {key}
      ensures key !in old(data) ==> data == old(data)
    {
      if key in data {
        data := data - {key};
      }
    }
  }

  /** A value is read back as it was set, a deleted key reads as the default, and
      writing one key leaves every other key as it was. */
  method SetGetDelete<V(==)>(s: Storage<V>, key: string, other: string, value: V, default: V)
      returns (got: V, gone: V)
    requires key != other
    modifies s
    ensures got == value && gone == default
    ensures other in s.data <==> other in old(s.data)
    ensures other in s.data ==> s.data[other] == old(s.data)[other]
  {
    s.Set(key, value);
    got := s.Get(key, default);
    s.Delete(key);
    gone := s.Get(key, default);
  }
}
