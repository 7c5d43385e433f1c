/** `shared/infrastructure/file_cache_backend.py`: one JSON file per key in
    a cache directory, holding the value and its expiry. The directory is a
    map from file name to what `get` makes of the file's text; time is an
    integer clock reading passed in by the caller. */
module FileBackend {
  import opened Wrappers
  import opened Strings
  import Utf8
  import Base64Url
  import MemoryBackend

  /** `_path_for_key(key)`, relative to the cache directory: the URL-safe
      base 64 text of the key's UTF-8 bytes, then ".json". */
  function PathForKey(key: string): (name: string)
    ensures EndsWith(name, ".json")
  {
    Base64Url.Encode(Utf8.Encode(key)) + ".json"
  }

  /** The key a cache file name stands for, if any. */
  function KeyForPath(name: string): Option<string> {
    if !EndsWith(name, ".json") then None
    else
      match Base64Url.Decode(name[..|name| - 5])
      case None => None
      case Some(bytes) => Utf8.Decode(bytes)
  }

  /** The file name gives back its key. */
  lemma KeyForPathForKey(key: string)
    ensures KeyForPath(PathForKey(key)) == Some(key)
  {
    var name := PathForKey(key);
    assert name[..|name| - 5] == Base64Url.Encode(Utf8.Encode(key));
    Base64Url.DecodeEncode(Utf8.Encode(key));
    Utf8.DecodeEncode(key);
  }

  /** Distinct keys never share a file. */
  lemma PathForKeyInjective(k1: string, k2: string)
    requires PathForKey(k1) == PathForKey(k2)
    ensures k1 == k2
  {
    KeyForPathForKey(k1);
    KeyForPathForKey(k2);
  }

  /** The file name is one path component: it holds no '/', so every entry
      lands directly in the cache directory. */
  lemma PathForKeyIsPlainName(key: string)
    ensures forall i :: 0 <= i < |PathForKey(key)| ==> PathForKey(key)[i] != '/'
  {
    var enc := Base64Url.Encode(Utf8.Encode(key));
    Base64Url.EncodeAlphabet(Utf8.Encode(key));
    assert forall i :: 0 <= i < |enc| ==> enc[i] == '=' || Base64Url.CharDigit(enc[i]).Some?;
    assert PathForKey(key) == enc + ".json";
  }

  /** A cache file as `get` sees it: an envelope whose expiry is a number or
      null and whose data validates (Some) or is missing or invalid (None);
      or text that is not JSON, not an object, or has a non-numeric
      expiry. */
  datatype CacheFile<V> = Envelope(expiry: Option<int>, data: Option<V>) | Unreadable

  /** An envelope whose expiry has passed. */
  predicate Expired<V>(f: CacheFile<V>, now: int) {
    f.Envelope? && f.expiry.Some? && now > f.expiry.value
  }

  /** What `get(key)` answers at time `now`. */
  function Lookup<V>(files: map<string, CacheFile<V>>, key: string, now: int): (r: Option<V>)
    ensures r.Some? <==> PathForKey(key) in files && files[PathForKey(key)].Envelope? &&
                         !Expired(files[PathForKey(key)], now) && files[PathForKey(key)].data.Some?
    ensures r.Some? ==> r == files[PathForKey(key)].data
  {
    var name := PathForKey(key);
    if name !in files then None
    else
      match files[name]
      case Unreadable => None
      case Envelope(expiry, data) =>
        if expiry.Some? && now > expiry.value then None else data
  }

  /** The directory after `get(key)`: only an expired envelope for `key` is
      removed. */
  function Pruned<V>(files: map<string, CacheFile<V>>, key: string, now: int): (d: map<string, CacheFile<V>>)
    ensures d.Keys == if PathForKey(key) in files && Expired(files[PathForKey(key)], now)
                      then files.Keys - {PathForKey(key)} else files.Keys
    ensures forall n :: n in d ==> d[n] == files[n]
  {
    var name := PathForKey(key);
    if name in files && Expired(files[name], now) then files - {name} else files
  }

  /** The envelope `set` writes at time `now`. */
  function Written<V>(value: V, ttl: Option<int>, now: int): CacheFile<V> {
    Envelope(MemoryBackend.ExpiryAt(now, ttl), Some(value))
  }

  class FileCacheBackend<V> {
    /** The files of the cache directory. */
    var files: map<string, CacheFile<V>>

    /** The directory is created when missing; files already in it stay. */
    constructor (existing: map<string, CacheFile<V>>)
      ensures files == existing
    {
      files := existing;
    }

    /** `get(key)`: None for a missing file, an unreadable one or invalid
        data; an expired file is removed and None returned. */
    method Get(key: string, now: int) returns (r: Option<V>)
      modifies this
      ensures r == Lookup(old(files), key, now)
      ensures files == Pruned(old(files), key, now)
    {
      var path := PathForKey(key);
      if path !in files {
        return None;
      }
      var payload := files[path];
      if payload.Unreadable? {
        return None;
      }
      if payload.expiry.Some? && now > payload.expiry.value {
        files := files - {path};
        return None;
      }
      return payload.data;
    }

    /** `set(key, value, ttl)`: (over)writes the key's file. */
    method Set(key: string, value: V, ttl: Option<int>, now: int)
      modifies this
      ensures files == old(files)[PathForKey(key) := Written(value, ttl, now)]
    {
      var path := PathForKey(key);
      var expiry := if ttl.Some? then Some(now + ttl.value) else None;
      files := files[path := Envelope(expiry, Some(value))];
    }
  }

  /** A value set at time `t` reads back exactly until `t + ttl`, and
      forever without a ttl. */
  lemma SetThenGet<V>(files: map<string, CacheFile<V>>, key: string, value: V, ttl: Option<int>, t: int, now: int)
    ensures Lookup(files[PathForKey(key) := Written(value, ttl, t)], key, now) ==
            if ttl.None? || now <= t + ttl.value then Some(value) else None
  {
  }

  /** A read after the expiry answers None and removes the file. */
  lemma ExpiredIsRemoved<V>(files: map<string, CacheFile<V>>, key: string, value: V, ttl: Option<int>, t: int, now: int)
    requires ttl.Some? && now > t + ttl.value
    ensures PathForKey(key) !in Pruned(files[PathForKey(key) := Written(value, ttl, t)], key, now)
  {
  }

  /** An unreadable file, or one whose data does not validate, is a miss;
      the file stays unless its expiry has passed. */
  lemma CorruptIsMiss<V>(files: map<string, CacheFile<V>>, key: string, now: int)
    requires PathForKey(key) in files
    requires files[PathForKey(key)].Unreadable? || files[PathForKey(key)].data.None?
    ensures Lookup(files, key, now) == None
    ensures !Expired(files[PathForKey(key)], now) ==> Pruned(files, key, now) == files
  {
  }

  /** Reads and writes of `key` never change what another key reads. */
  lemma OtherKeysUnaffected<V>(files: map<string, CacheFile<V>>, key: string, other: string,
                               f: CacheFile<V>, now: int, t: int)
    requires other != key
    ensures Lookup(files[PathForKey(key) := f], other, t) == Lookup(files, other, t)
    ensures Lookup(Pruned(files, key, now), other, t) == Lookup(files, other, t)
  {
    if PathForKey(other) == PathForKey(key) {
      PathForKeyInjective(other, key);
    }
  }

  /** A second `set` replaces the first one's value and expiry. */
  lemma SetOverwrites<V>(files: map<string, CacheFile<V>>, key: string, v1: V, v2: V,
                         ttl1: Option<int>, ttl2: Option<int>, t1: int, t2: int, now: int)
    ensures Lookup(files[PathForKey(key) := Written(v1, ttl1, t1)][PathForKey(key) := Written(v2, ttl2, t2)], key, now) ==
            Lookup(map[PathForKey(key) := Written(v2, ttl2, t2)], key, now)
  {
  }
}
