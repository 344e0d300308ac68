/**
 * The shared result cache: the response shapes it stores, the deterministic
 * key `analytics:{prefix}:{md5(json.dumps(kwargs, sort_keys=True))}` and the
 * cache itself as a mutable map. The digest of the serialised payload is a
 * parameter `hash`, applied to the canonical (key-sorted) payload tree.
 */
module ResultCache {
  import opened Wrappers
  import opened CanonicalJson
  import Params

  /** One `{x, y, z}` entry of the grouped and top endpoints; `x` may be null. */
  datatype Row = Row(x: Option<string>, y: int, z: int)

  /** One `{x, y, z}` entry of the performance endpoint; `z` is a growth percentage. */
  datatype PerfPoint = PerfPoint(x: string, y: int, z: real)

  datatype Cached =
    | Rows(rows: seq<Row>)
    | Points(points: seq<PerfPoint>)
    | Flag(text: string)

  /** `if cached := cache.get(key)`: only a non-empty value counts as a hit. */
  predicate Truthy(c: Cached) {
    match c
    case Rows(r) => r != []
    case Points(p) => p != []
    case Flag(t) => t != ""
  }

  /** `_generate_cache_key(prefix, **kwargs)`. */
  function CacheKey(hash: Json -> string, prefix: string, kwargs: seq<Member>): string {
    "analytics:" + prefix + ":" + hash(Canon(JObject(kwargs)))
  }

  /** The key depends on the keyword arguments as a dictionary, not on their order. */
  lemma CacheKeyOrderIndependent(hash: Json -> string, prefix: string, a: seq<Member>, b: seq<Member>)
    requires Equiv(JObject(a), JObject(b))
    ensures CacheKey(hash, prefix, a) == CacheKey(hash, prefix, b)
  {
    CanonRespectsEquiv(JObject(a), JObject(b));
  }

  /** The two keyword orders of `type=…, filters=…` give one key. */
  lemma GroupedKeyOrderIndependent(hash: Json -> string, prefix: string, t: string, f: Params.FilterDict)
    ensures CacheKey(hash, prefix, [Member("type", JStr(t)), Member("filters", Params.ToJson(f))])
         == CacheKey(hash, prefix, [Member("filters", Params.ToJson(f)), Member("type", JStr(t))])
  {
    var j := Params.ToJson(f);
    Params.ToJsonWellFormed(f);
    EquivReflexive(j);
    var a := [Member("type", JStr(t)), Member("filters", j)];
    var b := [Member("filters", j), Member("type", JStr(t))];
    assert IndexOf(b, "type") == 1 && IndexOf(b, "filters") == 0;
    assert IndexOf(a, "type") == 0 && IndexOf(a, "filters") == 1;
    CacheKeyOrderIndependent(hash, prefix, a, b);
  }

  /** Keys made with two different colon-free prefixes never coincide. */
  lemma {:induction false} PrefixesSeparateKeys(hash: Json -> string, p: string, q: string, a: seq<Member>, b: seq<Member>)
    requires p != q && ':' !in p && ':' !in q
    ensures CacheKey(hash, p, a) != CacheKey(hash, q, b)
  {
    var x, y := hash(Canon(JObject(a))), hash(Canon(JObject(b)));
    if CacheKey(hash, p, a) == CacheKey(hash, q, b) {
      var s, t := p + ":" + x, q + ":" + y;
      assert CacheKey(hash, p, a) == "analytics:" + s;
      assert CacheKey(hash, q, b) == "analytics:" + t;
      assert s == ("analytics:" + s)[10..] == ("analytics:" + t)[10..] == t;
      ColonFreeHeadsAgree(p, q, x, y);
      assert false;
    }
  }

  /** The position of the first `:` in `s` (or `|s|` when there is none). */
  function FirstColon(s: string): nat {
    if s == [] || s[0] == ':' then 0 else 1 + FirstColon(s[1..])
  }

  lemma {:induction false} FirstColonAfterPrefix(p: string, x: string)
    requires ':' !in p
    ensures FirstColon(p + ":" + x) == |p|
  {
    if p != [] {
      assert (p + ":" + x)[1..] == p[1..] + ":" + x;
      assert ':' !in p[1..] by {
        assert forall i :: 0 <= i < |p[1..]| ==> p[1..][i] == p[i + 1];
      }
      FirstColonAfterPrefix(p[1..], x);
    }
  }

  lemma ColonFreeHeadsAgree(p: string, q: string, x: string, y: string)
    requires ':' !in p && ':' !in q && p + ":" + x == q + ":" + y
    ensures p == q
  {
    FirstColonAfterPrefix(p, x);
    FirstColonAfterPrefix(q, y);
    assert p == (p + ":" + x)[..|p|];
    assert q == (q + ":" + y)[..|q|];
  }

  /** Every well-formed JSON value is equivalent to itself. */
  lemma {:induction false} EquivReflexive(j: Json)
    requires WellFormed(j)
    ensures Equiv(j, j)
    decreases j
  {
    match j
    case JList(xs) =>
      forall i | 0 <= i < |xs| ensures Equiv(xs[i], xs[i]) { EquivReflexive(xs[i]); }
    case JObject(ms) =>
      forall i | 0 <= i < |ms| ensures IndexOf(ms, ms[i].key) == i && Equiv(ms[i].value, ms[i].value) {
        IndexOfUnique(ms, i);
        EquivReflexive(ms[i].value);
      }
    case _ =>
  }

  lemma {:induction false} IndexOfUnique(ms: seq<Member>, i: nat)
    requires UniqueKeys(ms) && i < |ms|
    ensures IndexOf(ms, ms[i].key) == i
  {
    if i > 0 {
      assert ms[0].key != ms[i].key;
      assert UniqueKeys(ms[1..]) by {
        assert forall k :: 0 <= k < |ms[1..]| ==> ms[1..][k] == ms[k + 1];
      }
      assert ms[1..][i - 1] == ms[i];
      IndexOfUnique(ms[1..], i - 1);
    }
  }

  /** Django's cache: a key-value store (entry timeouts are not modelled). */
  class Cache {
    var entries: map<string, Cached>

    constructor ()
      ensures entries == map[]
    {
      entries := map[];
    }

    /** `cache.get(key)`: `None` on a miss. */
    method Get(key: string) returns (v: Option<Cached>)
      ensures v == (if key in entries then Some(entries[key]) else None)
    {
      v := if key in entries then Some(entries[key]) else None;
    }

    /** `cache.set(key, value)`. */
    method Set(key: string, value: Cached)
      modifies this
      ensures entries == old(entries)[key := value]
    {
      entries := entries[key := value];
    }

    /** `cache.add(key, value)`: stores only when the key is absent, and says whether it did. */
    method Add(key: string, value: Cached) returns (added: bool)
      modifies this
      ensures added <==> key !in old(entries)
      ensures entries == if added then old(entries)[key := value] else old(entries)
    {
      added := key !in entries;
      if added {
        entries := entries[key := value];
      }
    }

    /** `cache.delete(key)`. */
    method Delete(key: string)
      modifies this
      ensures entries == old(entries) - {key}
    {
      entries := entries - {key};
    }
  }
}
