/**
 * backend/app/metrics.py: the in-memory cache with a time to live in front
 * of the regions query, the cache key of a request, and the parameterised SQL
 * that `metrics_regions` assembles. The clock is a parameter (two readings:
 * one when the cache is consulted, one when it is filled) and the database is
 * left out: the rows it returns are a parameter too.
 */
module Metrics {
  import opened Options
  import opened Strings

  /** `_CACHE_TTL`, in seconds. */
  const CacheTtl: real := 30.0

  /** One row of the result: a region name and its flight count. */
  datatype RegionCount = RegionCount(region: string, count: int)

  type Rows = seq<RegionCount>

  /** An entry of `_cache`: the time it was stored and the stored value. */
  datatype Entry = Entry(ts: real, val: Rows)

  type Cache = map<string, Entry>

  // ------------------------------------------------------------ the cache

  /** What `_get_cached` returns, and `_cache` after it. */
  datatype Lookup = Lookup(val: Option<Rows>, after: Cache)

  /**
   * `_get_cached` on the dictionary: an entry at most `CacheTtl` seconds old
   * is returned as stored; an older one is deleted and nothing is returned;
   * no other key changes.
   */
  function GetCachedSpec(cache: Cache, key: string, now: real): (r: Lookup)
    ensures r.val.Some? <==> key in cache && now - cache[key].ts <= CacheTtl
    ensures r.val.Some? ==> r.val.value == cache[key].val
    ensures r.after.Keys == if key in cache && now - cache[key].ts > CacheTtl then cache.Keys - {key} else cache.Keys
    ensures forall k :: k in r.after ==> r.after[k] == cache[k]
  {
    if key !in cache then Lookup(None, cache)
    else if now - cache[key].ts > CacheTtl then Lookup(None, cache - {key})
    else Lookup(Some(cache[key].val), cache)
  }

  /** `if cached:` in `metrics_regions`: an empty list counts as a miss. */
  predicate CacheHit(v: Option<Rows>) { v.Some? && v.value != [] }

  /** A value stored at `t` is returned by a lookup at `now` exactly when `now - t <= 30`. */
  lemma SetThenGet(cache: Cache, key: string, v: Rows, t: real, now: real)
    ensures var r := GetCachedSpec(cache[key := Entry(t, v)], key, now);
      (now - t <= CacheTtl ==> r.val == Some(v)) && (now - t > CacheTtl ==> r.val.None? && r.after == cache - {key})
  {
    var c := cache[key := Entry(t, v)];
    if now - t > CacheTtl {
      assert c - {key} == cache - {key};
    }
  }

  /** Storing under one key leaves what a lookup of another key sees, and what it leaves behind, unchanged. */
  lemma SetOtherKey(cache: Cache, key: string, v: Rows, t: real, other: string, now: real)
    requires other != key
    ensures GetCachedSpec(cache[key := Entry(t, v)], other, now).val == GetCachedSpec(cache, other, now).val
    ensures GetCachedSpec(cache[key := Entry(t, v)], other, now).after == GetCachedSpec(cache, other, now).after[key := Entry(t, v)]
  {
    var c := cache[key := Entry(t, v)];
    if other in cache && now - cache[other].ts > CacheTtl {
      assert c - {other} == (cache - {other})[key := Entry(t, v)];
    }
  }

  /** A second lookup at the same time sees what the first one saw and changes nothing more. */
  lemma GetTwice(cache: Cache, key: string, now: real)
    ensures var first := GetCachedSpec(cache, key, now);
      GetCachedSpec(first.after, key, now) == Lookup(first.val, first.after)
  {
  }

  /** An entry that has expired stays expired: a later lookup does not bring it back. */
  lemma ExpiredStaysExpired(cache: Cache, key: string, now: real, later: real)
    requires now <= later
    ensures GetCachedSpec(cache, key, now).val.None? ==> GetCachedSpec(cache, key, later).val.None?
  {
  }

  // ------------------------------------------------------------ the key

  /** Python's `str()` of an optional text, as an f-string renders it. */
  function Shown(s: Option<string>): (r: string)
    ensures s.None? ==> r == "None"
    ensures s.Some? ==> r == s.value
  {
    if s.None? then "None" else s.value
  }

  /** `str(n)` of an integer. */
  function IntText(n: int): (s: string)
    ensures n >= 0 ==> AllDigits(s) && NumberOf(s) == n
    ensures n < 0 ==> |s| > 1 && s[0] == '-' && AllDigits(s[1..]) && NumberOf(s[1..]) == -n
  {
    NatTextNumber(if n < 0 then -n else n);
    if n < 0 then "-" + NatText(-n) else NatText(n)
  }

  lemma IntTextInjective(a: int, b: int)
    requires IntText(a) == IntText(b)
    ensures a == b
  {
  }

  lemma IntTextNoColon(n: int)
    ensures forall k :: 0 <= k < |IntText(n)| ==> IntText(n)[k] != ':'
  {
    var s := IntText(n);
    forall k | 0 <= k < |s| ensures s[k] != ':' {
      if n < 0 && k > 0 {
        assert s[1..][k - 1] == s[k];
      }
    }
  }

  /** `f"regions:{from_dt}:{to_dt}:{top}"`. */
  function CacheKey(fromDt: Option<string>, toDt: Option<string>, top: int): string {
    "regions:" + Shown(fromDt) + ":" + Shown(toDt) + ":" + IntText(top)
  }

  /** Length of the colon-free tail of a text. */
  function TailLen(s: string): (n: nat)
    ensures n <= |s|
  {
    if s == [] || s[|s| - 1] == ':' then 0 else 1 + TailLen(s[..|s| - 1])
  }

  /** After a colon, a colon-free text is the whole tail. */
  lemma {:induction false} TailLenOf(x: string, a: string)
    requires forall k :: 0 <= k < |a| ==> a[k] != ':'
    ensures TailLen(x + ":" + a) == |a|
    decreases |a|
  {
    var s := x + ":" + a;
    if a == [] {
      assert s[|s| - 1] == ':';
    } else {
      assert s[..|s| - 1] == x + ":" + a[..|a| - 1];
      TailLenOf(x, a[..|a| - 1]);
    }
  }

  /** Two texts that end in a colon and a colon-free tail agree on that tail. */
  lemma SameTail(x: string, a: string, y: string, b: string)
    requires x + ":" + a == y + ":" + b
    requires forall k :: 0 <= k < |a| ==> a[k] != ':'
    requires forall k :: 0 <= k < |b| ==> b[k] != ':'
    ensures a == b
  {
    var s := x + ":" + a;
    TailLenOf(x, a);
    TailLenOf(y, b);
    assert a == s[|s| - |a|..];
    assert b == (y + ":" + b)[|s| - |b|..];
  }

  /** Requests that share a cache entry ask for the same number of regions. */
  lemma KeyFixesTop(f: Option<string>, t: Option<string>, top: int, f': Option<string>, t': Option<string>, top': int)
    requires CacheKey(f, t, top) == CacheKey(f', t', top')
    ensures top == top'
  {
    IntTextNoColon(top);
    IntTextNoColon(top');
    SameTail("regions:" + Shown(f) + ":" + Shown(t), IntText(top), "regions:" + Shown(f') + ":" + Shown(t'), IntText(top'));
    IntTextInjective(top, top');
  }

  /**
   * The key does not separate the dates from each other: a request with only
   * `from_dt = "a:b"` and one with `from_dt = "a"`, `to_dt = "b:None"` share
   * an entry, although their queries differ.
   */
  lemma KeyCollision()
    ensures CacheKey(Some("a:b"), None, 10) == CacheKey(Some("a"), Some("b:None"), 10)
    ensures QueryParams(Some("a:b"), None, 10) != QueryParams(Some("a"), Some("b:None"), 10)
  {
    assert |QueryParams(Some("a:b"), None, 10)| == 2;
    assert |QueryParams(Some("a"), Some("b:None"), 10)| == 3;
  }

  // ------------------------------------------------------------ the query

  /** A bound query parameter. */
  datatype Param = TextParam(text: string) | IntParam(n: int)

  /** `if from_dt:`: given and non-empty. */
  predicate Truthy(s: Option<string>) { s.Some? && s.value != [] }

  /** The parameters of a request, in order: `from_dt` if truthy, `to_dt` if truthy, then `top`. */
  function QueryParams(fromDt: Option<string>, toDt: Option<string>, top: int): (ps: seq<Param>)
    ensures |ps| == (if Truthy(fromDt) then 1 else 0) + (if Truthy(toDt) then 1 else 0) + 1
    ensures ps[|ps| - 1] == IntParam(top)
    ensures Truthy(fromDt) ==> ps[0] == TextParam(fromDt.value)
    ensures Truthy(toDt) ==> ps[|ps| - 2] == TextParam(toDt.value)
  {
    (if Truthy(fromDt) then [TextParam(fromDt.value)] else [])
    + (if Truthy(toDt) then [TextParam(toDt.value)] else [])
    + [IntParam(top)]
  }

  /** How a bound parameter reads inside the statement (quoting of quotes inside the text is not modelled). */
  function Render(p: Param): string {
    match p
    case TextParam(t) => "'" + t + "'"
    case IntParam(n) => IntText(n)
  }

  /**
   * A statement as the code assembles it: fixed fragments, none of which
   * contains `%`, and `%s` placeholders.
   */
  datatype Part = Fragment(text: string) | Hole

  /** Number of `%s` placeholders. */
  function Holes(sql: seq<Part>): nat {
    if sql == [] then 0 else (if sql[0].Hole? then 1 else 0) + Holes(sql[1..])
  }

  /** psycopg2's binding: each placeholder, left to right, takes the next parameter. */
  function Bind(sql: seq<Part>, ps: seq<Param>): string
    decreases |sql|
  {
    if sql == [] then ""
    else match sql[0]
      case Fragment(t) => t + Bind(sql[1..], ps)
      case Hole => if ps == [] then "%s" + Bind(sql[1..], ps) else Render(ps[0]) + Bind(sql[1..], ps[1..])
  }

  lemma {:induction false} HolesAppend(a: seq<Part>, b: seq<Part>)
    ensures Holes(a + b) == Holes(a) + Holes(b)
  {
    if a == [] {
      assert a + b == b;
    } else {
      assert (a + b)[1..] == a[1..] + b;
      HolesAppend(a[1..], b);
    }
  }

  /** Binding a statement in two parts, when the first part has one placeholder per parameter it is given. */
  lemma {:induction false} BindAppend(a: seq<Part>, b: seq<Part>, ps: seq<Param>, qs: seq<Param>)
    requires Holes(a) == |ps|
    ensures Bind(a + b, ps + qs) == Bind(a, ps) + Bind(b, qs)
  {
    if a == [] {
      assert a + b == b && ps + qs == qs;
    } else {
      assert (a + b)[1..] == a[1..] + b;
      if a[0].Hole? {
        assert (ps + qs)[1..] == ps[1..] + qs;
        BindAppend(a[1..], b, ps[1..], qs);
      } else {
        BindAppend(a[1..], b, ps, qs);
      }
    }
  }

  const BaseSql := "\n    SELECT r.name, COUNT(*) AS cnt\n    FROM flights f\n    JOIN public.regions r ON f.start_region_id = r.id\n    WHERE f.start_region_id IS NOT NULL\n    "
  const FromCond := " AND f.start_time >= "
  const ToCond := " AND f.start_time <= "
  const TailSql := " GROUP BY r.id, r.name ORDER BY cnt DESC LIMIT "

  /** One optional condition: the fragment and a placeholder when the value is truthy, nothing otherwise. */
  function Clause(v: Option<string>, cond: string): seq<Part> {
    if Truthy(v) then [Fragment(cond), Hole] else []
  }

  /** The parameter of one optional condition. */
  function Given(v: Option<string>): seq<Param> {
    if Truthy(v) then [TextParam(v.value)] else []
  }

  /** A condition with its value in place, when the value is truthy. */
  function CondText(v: Option<string>, cond: string): string {
    if Truthy(v) then cond + Render(TextParam(v.value)) else ""
  }

  /** The statement of `metrics_regions`. */
  function RegionsSql(fromDt: Option<string>, toDt: Option<string>): seq<Part> {
    [Fragment(BaseSql)] + Clause(fromDt, FromCond) + Clause(toDt, ToCond) + [Fragment(TailSql), Hole, Fragment(";")]
  }

  /** The statement the database runs, with the values written in place. */
  function Inlined(fromDt: Option<string>, toDt: Option<string>, top: int): string {
    BaseSql + CondText(fromDt, FromCond) + CondText(toDt, ToCond) + TailText(top)
  }

  /** The grouping, ordering and limit, with `top` in place. */
  function TailText(top: int): string {
    TailSql + IntText(top) + ";"
  }

  lemma BindClause(v: Option<string>, cond: string)
    ensures Holes(Clause(v, cond)) == |Given(v)|
    ensures Bind(Clause(v, cond), Given(v)) == CondText(v, cond)
  {
    if Truthy(v) {
      var c, p := Clause(v, cond), TextParam(v.value);
      assert c[1..][1..] == [];
      assert Holes(c[1..]) == 1;
      assert Bind(c[1..], [p]) == Render(p) + Bind(c[1..][1..], []);
    }
  }

  lemma BindHead()
    ensures Holes([Fragment(BaseSql)]) == 0 && Bind([Fragment(BaseSql)], []) == BaseSql
  {
    var head: seq<Part> := [Fragment(BaseSql)];
    assert head[1..] == [];
  }

  lemma BindTail(top: int)
    ensures Holes([Fragment(TailSql), Hole, Fragment(";")]) == 1
    ensures Bind([Fragment(TailSql), Hole, Fragment(";")], [IntParam(top)]) == TailText(top)
  {
    var tail: seq<Part> := [Fragment(TailSql), Hole, Fragment(";")];
    var last := [IntParam(top)];
    var t3 := tail[1..][1..];
    assert t3 == [Fragment(";")] && t3[1..] == [];
    assert Holes(t3[1..]) == 0 && Bind(t3[1..], []) == "";
    assert Holes(t3) == 0 && Bind(t3, []) == ";";
    assert tail[1..][0] == Hole && last[1..] == [] && Render(last[0]) == IntText(top);
    assert Bind(tail[1..], last) == IntText(top) + Bind(t3, []);
  }

  /** Binding the parameters of a request to its statement gives the statement with the values in place, one placeholder per parameter. */
  lemma BindRegions(fromDt: Option<string>, toDt: Option<string>, top: int)
    ensures Holes(RegionsSql(fromDt, toDt)) == |QueryParams(fromDt, toDt, top)|
    ensures Bind(RegionsSql(fromDt, toDt), QueryParams(fromDt, toDt, top)) == Inlined(fromDt, toDt, top)
  {
    HolesRegions(fromDt, toDt, top);
    var head: seq<Part> := [Fragment(BaseSql)];
    var c1, c2 := Clause(fromDt, FromCond), Clause(toDt, ToCond);
    var tail: seq<Part> := [Fragment(TailSql), Hole, Fragment(";")];
    var g1, g2, last := Given(fromDt), Given(toDt), [IntParam(top)];
    BindClause(fromDt, FromCond);
    BindClause(toDt, ToCond);
    BindHead();
    BindTail(top);
    BindAppend(head, c1, [], g1);
    BindAppend(head + c1, c2, g1, g2);
    BindAppend(head + c1 + c2, tail, g1 + g2, last);
    assert [] + g1 == g1;
    assert QueryParams(fromDt, toDt, top) == g1 + g2 + last;
  }

  lemma HolesRegions(fromDt: Option<string>, toDt: Option<string>, top: int)
    ensures Holes([Fragment(BaseSql)] + Clause(fromDt, FromCond)) == |Given(fromDt)|
    ensures Holes([Fragment(BaseSql)] + Clause(fromDt, FromCond) + Clause(toDt, ToCond)) == |Given(fromDt) + Given(toDt)|
    ensures Holes(RegionsSql(fromDt, toDt)) == |QueryParams(fromDt, toDt, top)|
  {
    var head: seq<Part> := [Fragment(BaseSql)];
    var c1, c2 := Clause(fromDt, FromCond), Clause(toDt, ToCond);
    BindHead();
    BindTail(top);
    BindClause(fromDt, FromCond);
    BindClause(toDt, ToCond);
    HolesAppend(head, c1);
    HolesAppend(head + c1, c2);
    HolesAppend(head + c1 + c2, [Fragment(TailSql), Hole, Fragment(";")]);
  }

  /**
   * The statement and parameter list of `metrics_regions`, grown by appends:
   * one placeholder per parameter, bound in order to the query with the
   * values in place.
   */
  method BuildRegionsQuery(fromDt: Option<string>, toDt: Option<string>, top: int) returns (sql: seq<Part>, params: seq<Param>)
    ensures sql == RegionsSql(fromDt, toDt) && params == QueryParams(fromDt, toDt, top)
    ensures Holes(sql) == |params|
    ensures Bind(sql, params) == Inlined(fromDt, toDt, top)
  {
    sql := [Fragment(BaseSql)];
    params := [];
    if Truthy(fromDt) {
      sql := sql + [Fragment(FromCond), Hole];
      params := params + [TextParam(fromDt.value)];
    }
    assert sql == [Fragment(BaseSql)] + Clause(fromDt, FromCond) && params == Given(fromDt);
    if Truthy(toDt) {
      sql := sql + [Fragment(ToCond), Hole];
      params := params + [TextParam(toDt.value)];
    }
    assert sql == [Fragment(BaseSql)] + Clause(fromDt, FromCond) + Clause(toDt, ToCond);
    assert params == Given(fromDt) + Given(toDt);
    sql := sql + [Fragment(TailSql), Hole, Fragment(";")];
    params := params + [IntParam(top)];
    BindRegions(fromDt, toDt, top);
  }

  // ------------------------------------------------------------ the endpoint

  /** The statement and parameters sent to the database. */
  datatype Query = Query(sql: seq<Part>, params: seq<Param>)

  /** What one call of `metrics_regions` returns, what it sends to the database, and `_cache` after it. */
  datatype Step = Step(res: Rows, query: Option<Query>, after: Cache)

  /**
   * `metrics_regions`: a non-empty cached value is served without a query;
   * otherwise the query runs, and its rows are stored at the second clock
   * reading and returned.
   */
  function RegionsStep(cache: Cache, fromDt: Option<string>, toDt: Option<string>, top: int,
                       now: real, later: real, fetched: Rows): (s: Step)
    ensures s.query.None? <==> CacheHit(GetCachedSpec(cache, CacheKey(fromDt, toDt, top), now).val)
    ensures s.query.Some? ==>
      && s.res == fetched
      && CacheKey(fromDt, toDt, top) in s.after && s.after[CacheKey(fromDt, toDt, top)] == Entry(later, fetched)
      && Bind(s.query.value.sql, s.query.value.params) == Inlined(fromDt, toDt, top)
    ensures var key := CacheKey(fromDt, toDt, top);
      s.query.None? ==> key in cache && s.res == cache[key].val && s.after == cache
    ensures forall k :: k != CacheKey(fromDt, toDt, top) ==>
      (k in s.after <==> k in cache) && (k in cache ==> s.after[k] == cache[k])
  {
    var key := CacheKey(fromDt, toDt, top);
    var look := GetCachedSpec(cache, key, now);
    if CacheHit(look.val) then Step(look.val.value, None, look.after)
    else
      BindRegions(fromDt, toDt, top);
      Step(fetched, Some(Query(RegionsSql(fromDt, toDt), QueryParams(fromDt, toDt, top))), look.after[key := Entry(later, fetched)])
  }

  /** A repeated request within the time to live is served from the cache, without a query. */
  lemma RepeatServedFromCache(cache: Cache, f: Option<string>, t: Option<string>, top: int,
                              now: real, later: real, fetched: Rows, again: real, fetched2: Rows)
    requires fetched != [] && again - later <= CacheTtl
    ensures var first := RegionsStep(cache, f, t, top, now, later, fetched);
      first.query.Some? ==> RegionsStep(first.after, f, t, top, again, again, fetched2) == Step(fetched, None, first.after)
  {
    var key := CacheKey(f, t, top);
    var first := RegionsStep(cache, f, t, top, now, later, fetched);
    if first.query.Some? {
      var look := GetCachedSpec(first.after, key, again);
      assert look == Lookup(Some(fetched), first.after);
      assert CacheHit(look.val);
      assert RegionsStep(first.after, f, t, top, again, again, fetched2) == Step(look.val.value, None, look.after);
    }
  }

  /** An empty result is never served from the cache: after a query that found no rows, the next request queries again. */
  lemma EmptyResultRequeried(cache: Cache, f: Option<string>, t: Option<string>, top: int,
                             now: real, later: real, again: real, again2: real, fetched2: Rows)
    ensures var first := RegionsStep(cache, f, t, top, now, later, []);
      first.query.Some? ==> RegionsStep(first.after, f, t, top, again, again2, fetched2).query.Some?
  {
    var first := RegionsStep(cache, f, t, top, now, later, []);
    if first.query.Some? {
      var look := GetCachedSpec(first.after, CacheKey(f, t, top), again);
      assert !CacheHit(look.val);
    }
  }

  /** `_cache` with its two operations; the clock is read by the caller. */
  class RegionsCache {
    var entries: Cache

    constructor ()
      ensures entries == map[]
    {
      entries := map[];
    }

    /** `_get_cached(key)` at time `now`. */
    method GetCached(key: string, now: real) returns (r: Option<Rows>)
      modifies this
      ensures r == GetCachedSpec(old(entries), key, now).val
      ensures entries == GetCachedSpec(old(entries), key, now).after
    {
      if key !in entries {
        return None;
      }
      var rec := entries[key];
      if now - rec.ts > CacheTtl {
        entries := entries - {key};
        return None;
      }
      return Some(rec.val);
    }

    /** `_set_cache(key, val)` at time `now`. */
    method SetCache(key: string, val: Rows, now: real)
      modifies this
      ensures entries == old(entries)[key := Entry(now, val)]
    {
      entries := entries[key := Entry(now, val)];
    }

    /** `metrics_regions` with the clock read at `now` and at `later`, and the database's rows `fetched`. */
    method MetricsRegions(fromDt: Option<string>, toDt: Option<string>, top: int, now: real, later: real, fetched: Rows)
      returns (res: Rows, query: Option<Query>)
      modifies this
      ensures Step(res, query, entries) == RegionsStep(old(entries), fromDt, toDt, top, now, later, fetched)
    {
      var key := CacheKey(fromDt, toDt, top);
      var cached := GetCached(key, now);
      if cached.Some? && cached.value != [] {
        return cached.value, None;
      }
      var sql, params := BuildRegionsQuery(fromDt, toDt, top);
      query := Some(Query(sql, params));
      res := fetched;
      SetCache(key, res, later);
    }
  }
}
