/** The disk-backed fetch cache: a URL is turned into a file name by character substitution, and
    a lookup either serves the stored entry or fetches, stores and then serves. */
module Cache {
  import opened Base

  type Bytes = seq<bv8>

  /** What one network request yields: the raw body and its decoded text. */
  datatype Response = Response(content: Bytes, text: string)

  /** What the cache cannot see: the network (None when the request raises), the UTF-8 encoding
      used when text is written, and the decoding `open(path).read()` applies. */
  datatype Env = Env(network: string -> Option<Response>, encode: string -> Bytes, decode: Bytes -> string)

  predicate IsSeparator(c: char)
  {
    c == ':' || c == '/'
  }

  /** `:` and `/` become `^`; every other character stays. */
  function KeyChar(c: char): char
  {
    if IsSeparator(c) then '^' else c
  }

  /** `re.sub('[:/]', '^', url)`: the name of the cache entry of `url`. */
  function CacheKey(url: string): (key: string)
    ensures |key| == |url|
    ensures forall i :: 0 <= i < |url| ==> key[i] == KeyChar(url[i])
    ensures forall i :: 0 <= i < |key| ==> !IsSeparator(key[i])
  {
    if url == [] then [] else [KeyChar(url[0])] + CacheKey(url[1..])
  }

  lemma {:induction false} CacheKeyConcat(a: string, b: string)
    ensures CacheKey(a + b) == CacheKey(a) + CacheKey(b)
  {
    var whole, parts := CacheKey(a + b), CacheKey(a) + CacheKey(b);
    forall i | 0 <= i < |whole| ensures whole[i] == parts[i] {
      if i < |a| {
        assert (a + b)[i] == a[i];
      } else {
        assert (a + b)[i] == b[i - |a|];
      }
    }
    assert whole == parts;
  }

  /** Substituting twice is substituting once. */
  lemma {:induction false} CacheKeyIdempotent(url: string)
    ensures CacheKey(CacheKey(url)) == CacheKey(url)
  {
    var k := CacheKey(url);
    assert forall i :: 0 <= i < |k| ==> CacheKey(k)[i] == k[i];
  }

  /** Two URLs share a cache entry exactly when they have the same length and agree everywhere
      once `:` and `/` are read as `^`. */
  lemma {:induction false} SameKeyIff(u: string, v: string)
    ensures CacheKey(u) == CacheKey(v) <==>
      |u| == |v| && forall i :: 0 <= i < |u| ==> KeyChar(u[i]) == KeyChar(v[i])
  {
    var ku, kv := CacheKey(u), CacheKey(v);
    if |u| == |v| && forall i :: 0 <= i < |u| ==> KeyChar(u[i]) == KeyChar(v[i]) {
      forall i | 0 <= i < |ku| ensures ku[i] == kv[i] {
        assert ku[i] == KeyChar(u[i]) && kv[i] == KeyChar(v[i]);
      }
    }
    if ku == kv {
      forall i | 0 <= i < |u| ensures KeyChar(u[i]) == KeyChar(v[i]) {
        assert ku[i] == KeyChar(u[i]) && kv[i] == KeyChar(v[i]);
      }
    }
  }

  /** The directory the entries live in, relative to the program's own directory. */
  const CacheDir := ".cache"

  /** The path a binary lookup hands back: the entry's file name under the cache directory,
      written relative to the program's directory. */
  function CachePath(url: string): string
  {
    CacheDir + "/" + CacheKey(url)
  }

  /** The path is the `.cache/` prefix followed by the key, and the key holds no further `/`. */
  lemma {:induction false} CachePathInsideCacheDir(url: string)
    ensures |CachePath(url)| == |url| + 7
    ensures CachePath(url)[..7] == ".cache/"
    ensures '/' !in CachePath(url)[7..]
  {
    var p := CachePath(url);
    assert p[7..] == CacheKey(url);
  }

  /** The effect of one call: what it returns, the new store, and whether it went to the network. */
  datatype Lookup = Lookup(result: Result<string>, store: map<string, Bytes>, fetched: bool)

  /** One call of the cache on store `store`. */
  function Get(env: Env, store: map<string, Bytes>, url: string, binary: bool): Lookup
  {
    var key := CacheKey(url);
    if key in store then
      Lookup(Ok(if binary then CachePath(url) else env.decode(store[key])), store, false)
    else
      match env.network(url)
      case None => Lookup(Err(FetchFailed(url)), store, true)
      case Some(resp) =>
        var payload := if binary then resp.content else env.encode(resp.text);
        Lookup(Ok(if binary then CachePath(url) else resp.text), store[key := payload], true)
  }

  /** What one call does. A present entry is served without a fetch (text mode decodes it,
      binary mode only names its path); a missing one is fetched, written under its key and
      served; a failed fetch is the only error and writes nothing; no existing entry changes. */
  lemma GetBehaviour(env: Env, store: map<string, Bytes>, url: string, binary: bool)
    ensures var s := Get(env, store, url, binary);
      && (s.fetched <==> CacheKey(url) !in store)
      && (!s.fetched ==> s.store == store && s.result.Ok?)
      && (!s.fetched && !binary ==> s.result.value == env.decode(store[CacheKey(url)]))
      && (binary && s.result.Ok? ==> s.result.value == CachePath(url))
      && (s.result.Err? <==> s.fetched && env.network(url).None?)
      && (s.result.Err? ==> s.result.error == FetchFailed(url) && s.store == store)
      && (s.store.Keys == store.Keys + (if s.result.Ok? then {CacheKey(url)} else {}))
      && (s.fetched && !binary && s.result.Ok? ==>
          s.result.value == env.network(url).value.text && s.store[CacheKey(url)] == env.encode(s.result.value))
      && (s.fetched && binary && s.result.Ok? ==> s.store[CacheKey(url)] == env.network(url).value.content)
      && (forall k :: k in store ==> k in s.store && s.store[k] == store[k])
  {
  }

  /** A call that succeeded leaves its entry in place: an immediate second call with the same URL,
      in either mode, fetches nothing and changes nothing. In text mode it serves the stored
      text read back through the decoder. */
  lemma SecondCallHits(env: Env, store: map<string, Bytes>, url: string, binary: bool, again: bool)
    requires Get(env, store, url, binary).result.Ok?
    ensures var first := Get(env, store, url, binary);
      var second := Get(env, first.store, url, again);
      && !second.fetched
      && second.store == first.store
      && (again ==> second.result == Ok(CachePath(url)))
      && (!again && !binary && first.fetched ==>
            second.result == Ok(env.decode(env.encode(first.result.value))))
  {
  }

  /** The collision the substitution allows: once one URL is cached, any URL with the same key
      is served from that entry without a fetch. */
  lemma CollidingUrlsShareEntry(env: Env, store: map<string, Bytes>, u: string, v: string, binary: bool)
    requires |u| == |v| && forall i :: 0 <= i < |u| ==> KeyChar(u[i]) == KeyChar(v[i])
    requires Get(env, store, u, binary).result.Ok?
    ensures var first := Get(env, store, u, binary);
      var second := Get(env, first.store, v, false);
      !second.fetched && second.result == Ok(env.decode(first.store[CacheKey(u)]))
  {
    SameKeyIff(u, v);
  }

  /** `later` keeps every entry of `store` as it was: the cache only ever adds entries. */
  predicate Extends(store: map<string, Bytes>, later: map<string, Bytes>)
  {
    forall k :: k in store ==> k in later && later[k] == store[k]
  }

  /** What a step that may write the cache yields, with the store after it and the URLs it sent
      to the network, in order. */
  datatype Run<+T> = Run(result: Result<T>, store: map<string, Bytes>, fetched: seq<string>)

  /** The URLs one call sends to the network. */
  function Sent(s: Lookup, url: string): seq<string>
  {
    if s.fetched then [url] else []
  }

  /** A call that succeeded is answered again, from any store that kept its entries, with the
      same result, without a write and without the network. In text mode this needs the decoder
      to read back what the encoder wrote. */
  lemma WarmGet(env: Env, store: map<string, Bytes>, url: string, binary: bool,
                later: map<string, Bytes>, net: string -> Option<Response>)
    requires Get(env, store, url, binary).result.Ok?
    requires Extends(Get(env, store, url, binary).store, later)
    requires !binary ==> forall t :: env.decode(env.encode(t)) == t
    ensures Get(env.(network := net), later, url, binary) == Lookup(Get(env, store, url, binary).result, later, false)
  {
  }

  /** The cache directory as a mutable store, with a log of the URLs sent to the network. */
  class FetchCache {
    const env: Env
    var entries: map<string, Bytes>
    ghost var requested: seq<string>

    constructor (env: Env, entries: map<string, Bytes>)
      ensures this.entries == entries && requested == []
      ensures this.env == env
    {
      this.env := env;
      this.entries := entries;
      requested := [];
    }

    /** `get_cached(url, binary)`. */
    method Lookup(url: string, binary: bool) returns (r: Result<string>)
      modifies this
      ensures var s := Get(env, old(entries), url, binary);
        && r == s.result
        && entries == s.store
        && requested == old(requested) + Sent(s, url)
    {
      var key := CacheKey(url);
      var text: string := "";
      if key in entries {
        if !binary {
          text := env.decode(entries[key]);
        }
      } else {
        requested := requested + [url];
        var resp := env.network(url);
        if resp.None? {
          return Err(FetchFailed(url));
        }
        if binary {
          entries := entries[key := resp.value.content];
        } else {
          text := resp.value.text;
          entries := entries[key := env.encode(text)];
        }
      }
      if binary {
        r := Ok(CacheDir + "/" + key);
      } else {
        r := Ok(text);
      }
    }
  }
}
