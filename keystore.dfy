/** The server's API key store: a map from key to its record, changed in
    place by `Add`, `Remove` and `Clear`, and persisted to a file when the
    store has a path. The file's contents, the outcome of writing it and
    the clock are inputs; the JSON encoding and the lock are not modelled. */
module KeyStore {
  import opened Wrappers

  /** `KeyInfo`: a key, its description and its creation time (as an
      instant on an abstract clock). */
  datatype KeyInfo = KeyInfo(key: string, description: string, createdAt: int)

  /** What reading the keys file yields: no file at all, a read error, a
      file that does not parse, or the list of records it holds. */
  datatype KeysFile = NoFile | ReadFailure(cause: string) | Malformed(cause: string) | Entries(infos: seq<KeyInfo>)

  /** The records of a list indexed by their key; a later record with the
      same key replaces an earlier one, as loading does. */
  function Indexed(infos: seq<KeyInfo>): (m: map<string, KeyInfo>)
    ensures forall k :: k in m <==> exists i | 0 <= i < |infos| :: infos[i].key == k
    ensures forall k | k in m :: m[k].key == k && m[k] in infos
  {
    if infos == [] then map[]
    else
      var init := infos[..|infos| - 1];
      var last := infos[|infos| - 1];
      var m := Indexed(init);
      assert forall i | 0 <= i < |init| :: init[i] == infos[i];
      assert forall x | x in init :: x in infos;
      m[last.key := last]
  }

  /** Loading one more record stores it under its key over what the
      records before it built. */
  lemma IndexedSnoc(base: map<string, KeyInfo>, infos: seq<KeyInfo>, x: KeyInfo)
    ensures base + Indexed(infos + [x]) == (base + Indexed(infos))[x.key := x]
  {
    var s := infos + [x];
    assert s[..|s| - 1] == infos;
  }

  /** `Validate`'s verdict on a map of keys: an empty store rejects every
      candidate; otherwise a candidate is accepted when it is a stored key. */
  predicate Accepts(keys: map<string, KeyInfo>, candidate: string) {
    |keys| != 0 && candidate in keys
  }

  /** Fail-closed: no candidate, not even the empty string, passes an
      empty store. */
  lemma EmptyRejectsAll(keys: map<string, KeyInfo>, candidate: string)
    requires |keys| == 0
    ensures !Accepts(keys, candidate)
  {
  }

  /** A non-empty store accepts exactly its keys. */
  lemma AcceptsStoredKeys(keys: map<string, KeyInfo>, candidate: string)
    requires |keys| != 0
    ensures Accepts(keys, candidate) <==> candidate in keys
  {
  }

  /** `save`'s error: none when the store has no file, otherwise the error
      of writing the file, if any. */
  function SaveResult(filePath: string, writeFailure: Option<string>): (err: Option<string>)
    ensures filePath == "" ==> err == None
    ensures err.Some? <==> filePath != "" && writeFailure.Some?
  {
    if filePath == "" then None
    else match writeFailure
      case None => None
      case Some(cause) => Some("failed to write keys file: " + cause)
  }

  /** A listing of the store: every stored record once, in some order. */
  ghost predicate Lists(infos: seq<KeyInfo>, keys: map<string, KeyInfo>) {
    && (forall i | 0 <= i < |infos| :: infos[i].key in keys && keys[infos[i].key] == infos[i])
    && (forall i, j | 0 <= i < j < |infos| :: infos[i].key != infos[j].key)
    && (forall k | k in keys :: exists i | 0 <= i < |infos| :: infos[i].key == k)
  }

  /** Persistence round trip: loading what a listing of the store holds
      rebuilds the same map, in whatever order the listing came. */
  lemma LoadOfListing(infos: seq<KeyInfo>, keys: map<string, KeyInfo>)
    requires Lists(infos, keys)
    ensures Indexed(infos) == keys
  {
    var m := Indexed(infos);
    forall k | k in keys
      ensures k in m && m[k] == keys[k]
    {
      var i :| 0 <= i < |infos| && infos[i].key == k;
      assert k in m;
      var j :| 0 <= j < |infos| && m[k] == infos[j];
      assert infos[j].key == k;
    }
    forall k | k in m
      ensures k in keys
    {
      var i :| 0 <= i < |infos| && infos[i].key == k;
    }
  }

  class Store {
    var keys: map<string, KeyInfo>
    var filePath: string

    /** Every record is stored under its own key. */
    ghost predicate Valid()
      reads this
    {
      forall k | k in keys :: keys[k].key == k
    }

    /** The store `NewStore` starts from: no keys. */
    constructor (filePath: string)
      ensures keys == map[] && this.filePath == filePath
      ensures Valid()
    {
      keys := map[];
      this.filePath := filePath;
    }

    /** `NewStore`: a store with the given path, loaded from the keys file
        when the path is not empty. A missing file leaves it empty; a file
        that cannot be read or parsed makes creation fail. */
    static method NewStore(filePath: string, file: KeysFile) returns (store: Store?, err: Option<string>)
      ensures err.None? <==> store != null
      ensures store != null ==> fresh(store) && store.Valid() && store.filePath == filePath
      ensures filePath == "" ==> store != null && store.keys == map[]
      ensures filePath != "" ==> match file
        case NoFile => store != null && store.keys == map[]
        case ReadFailure(cause) => err == Some("failed to load keys: " + cause)
        case Malformed(cause) => err == Some("failed to load keys: failed to parse keys file: " + cause)
        case Entries(infos) => store != null && store.keys == Indexed(infos)
    {
      store := new Store(filePath);
      err := None;
      if filePath != "" {
        match file
        case NoFile =>
        case ReadFailure(cause) =>
          store, err := null, Some("failed to load keys: " + cause);
        case Malformed(cause) =>
          store, err := null, Some("failed to load keys: failed to parse keys file: " + cause);
        case Entries(infos) =>
          store.Load(infos);
      }
    }

    /** The loop of `load`: each record is stored under its key, a later
        one replacing an earlier one with the same key. */
    method Load(infos: seq<KeyInfo>)
      requires Valid()
      modifies this
      ensures keys == old(keys) + Indexed(infos)
      ensures filePath == old(filePath)
      ensures Valid()
    {
      var i := 0;
      while i < |infos|
        invariant 0 <= i <= |infos|
        invariant keys == old(keys) + Indexed(infos[..i])
        invariant filePath == old(filePath)
        invariant Valid()
      {
        IndexedSnoc(old(keys), infos[..i], infos[i]);
        assert infos[..i + 1] == infos[..i] + [infos[i]];
        keys := keys[infos[i].key := infos[i]];
        i := i + 1;
      }
      assert infos[..i] == infos;
    }

    /** `Add`: a key already present is refused and nothing changes;
        otherwise exactly one record is inserted, stamped with `now`, and
        the store is saved. The insertion stands even when saving fails. */
    method Add(key: string, description: string, now: int, writeFailure: Option<string>) returns (err: Option<string>)
      requires Valid()
      modifies this
      ensures filePath == old(filePath)
      ensures key in old(keys) ==> err == Some("key already exists") && keys == old(keys)
      ensures key !in old(keys) ==>
        && keys == old(keys)[key := KeyInfo(key, description, now)]
        && err == SaveResult(filePath, writeFailure)
      ensures Valid()
    {
      if key in keys {
        return Some("key already exists");
      }
      keys := keys[key := KeyInfo(key, description, now)];
      err := SaveResult(filePath, writeFailure);
    }

    /** `Remove`: an absent key is an error and nothing changes; otherwise
        exactly that key is deleted and the store is saved. */
    method Remove(key: string, writeFailure: Option<string>) returns (err: Option<string>)
      requires Valid()
      modifies this
      ensures filePath == old(filePath)
      ensures key !in old(keys) ==> err == Some("key not found") && keys == old(keys)
      ensures key in old(keys) ==>
        && keys == old(keys) - {key}
        && err == SaveResult(filePath, writeFailure)
      ensures Valid()
    {
      if key !in keys {
        return Some("key not found");
      }
      keys := keys - {key};
      err := SaveResult(filePath, writeFailure);
    }

    /** `Clear`: every key is dropped and the store is saved. */
    method Clear(writeFailure: Option<string>) returns (err: Option<string>)
      modifies this
      ensures filePath == old(filePath)
      ensures keys == map[]
      ensures err == SaveResult(filePath, writeFailure)
      ensures Valid()
    {
      keys := map[];
      err := SaveResult(filePath, writeFailure);
    }

    /** `Validate`: the stored keys are compared with the candidate one by
        one, in no particular order, after an empty store has rejected it
        outright. */
    method Validate(candidate: string) returns (ok: bool)
      ensures ok == Accepts(keys, candidate)
    {
      if |keys| == 0 {
        return false;
      }
      var remaining := keys.Keys;
      while remaining != {}
        invariant remaining <= keys.Keys
        invariant candidate !in keys.Keys - remaining
        decreases |remaining|
      {
        var stored :| stored in remaining;
        if candidate == stored {
          return true;
        }
        remaining := remaining - {stored};
      }
      return false;
    }

    /** `List`: every stored record once, in no particular order. */
    method List() returns (infos: seq<KeyInfo>)
      requires Valid()
      ensures Lists(infos, keys)
      ensures |infos| == |keys|
    {
      infos := [];
      var remaining := keys.Keys;
      while remaining != {}
        invariant remaining <= keys.Keys
        invariant forall i | 0 <= i < |infos| :: infos[i].key in keys.Keys - remaining && keys[infos[i].key] == infos[i]
        invariant forall i, j | 0 <= i < j < |infos| :: infos[i].key != infos[j].key
        invariant forall k | k in keys.Keys - remaining :: exists i | 0 <= i < |infos| :: infos[i].key == k
        invariant |infos| + |remaining| == |keys|
        decreases |remaining|
      {
        var k :| k in remaining;
        ghost var before := infos;
        ghost var was := remaining;
        infos := infos + [keys[k]];
        remaining := remaining - {k};
        assert infos[|before|].key == k;
        forall k' | k' in keys.Keys - remaining
          ensures exists i | 0 <= i < |infos| :: infos[i].key == k'
        {
          if k' != k {
            assert k' in keys.Keys - was;
            var i :| 0 <= i < |before| && before[i].key == k';
            assert infos[i] == before[i];
          }
        }
      }
      assert keys.Keys - remaining == keys.Keys;
    }

    /** `IsEmpty`. */
    method IsEmpty() returns (empty: bool)
      ensures empty <==> keys == map[]
    {
      empty := |keys| == 0;
    }
  }
}
