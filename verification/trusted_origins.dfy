/** The 30-minute cache in front of the trusted-origins query (packages/server/src/services/admin.ts:120-157). */
module TrustedOrigins {
  import opened Ordering

  const TTL := 30 * 60_000

  datatype Cache = Cache(data: seq<string>, expiresAt: int)

  /** The rows of a query; each owner may have no list. None is a failed query. */
  type Rows = seq<Option<seq<string>>>

  function Flatten(rows: Rows): seq<string> {
    if rows == [] then [] else (match rows[0] case Some(xs) => xs case None => []) + Flatten(rows[1..])
  }

  /** `Array.from(new Set(rows.flatMap(...)))` */
  function Origins(rows: Rows): seq<string> { Dedup(Flatten(rows)) }

  predicate Fresh(cache: Option<Cache>, now: int) { cache.Some? && now < cache.value.expiresAt }

  class OriginsService {
    const isCloud: bool
    var cache: Option<Cache>

    constructor (isCloud: bool)
      ensures this.isCloud == isCloud && cache == None
    {
      this.isCloud := isCloud;
      cache := None;
    }

    /** One call that no other overlaps. `result` is what the query would give; it counts only if one is run. */
    method GetTrustedOrigins(now: int, result: Option<Rows>) returns (origins: seq<string>, queried: bool)
      modifies this
      ensures isCloud ==> (origins, queried, cache) == Answer(old(cache), now, result)
      ensures queried <==> !isCloud || old(cache).None? || now >= old(cache).value.expiresAt
      ensures !queried ==> origins == old(cache).value.data && cache == old(cache)
      ensures queried && result.Some? ==>
                && AreOrigins(origins, result.value)
                && cache == if isCloud then Some(Cache(origins, now + 1_800_000)) else old(cache)
      ensures queried && result.None? ==>
                && cache == old(cache)
                && origins == if isCloud && cache.Some? then cache.value.data else []
    {
      if result.Some? { OriginsExact(result.value); }
      if isCloud {
        if cache.Some? && now < cache.value.expiresAt { return cache.value.data, false; }
        match result {
          case Some(rows) =>
            var trusted := Origins(rows);
            cache := Some(Cache(trusted, now + TTL));
            return trusted, true;
          case None =>
            return if cache.Some? then cache.value.data else [], true;
        }
      }
      match result {
        case Some(rows) => return Origins(rows), true;
        case None => return [], true;
      }
    }
  }

  /** Answer, whether a query ran, and the cache afterwards. */
  function Answer(cache: Option<Cache>, now: int, result: Option<Rows>): (seq<string>, bool, Option<Cache>) {
    if Fresh(cache, now) then (cache.value.data, false, cache)
    else match result
      case Some(rows) => (Origins(rows), true, Some(Cache(Origins(rows), now + TTL)))
      case None => (if cache.Some? then cache.value.data else [], true, cache)
  }

  ghost predicate AreOrigins(origins: seq<string>, rows: Rows) {
    Distinct(origins) && forall o :: o in origins <==> exists r :: r in rows && r.Some? && o in r.value
  }

  /** Every answered list is free of repetitions and holds exactly the origins of the rows. */
  lemma OriginsExact(rows: Rows)
    ensures AreOrigins(Origins(rows), rows)
  {
    DedupIsDistinct(Flatten(rows));
    forall o ensures o in Origins(rows) <==> exists r :: r in rows && r.Some? && o in r.value { InFlatten(rows, o); }
  }

  lemma {:induction false} FlattenMore(rows: Rows, r: Option<seq<string>>)
    ensures Flatten(rows + [r]) == Flatten(rows) + match r case Some(xs) => xs case None => []
  {
    if rows == [] {
      assert [r][1..] == [];
    } else {
      assert (rows + [r])[1..] == rows[1..] + [r];
      FlattenMore(rows[1..], r);
    }
  }

  /** The origins stand in the order in which they first occur: going through the rows, each further origin is appended
      unless it is there already. */
  lemma OriginsInOrder(rows: Rows, xs: seq<string>, x: string)
    ensures Origins([]) == [] && Origins(rows + [None]) == Origins(rows + [Some([])]) == Origins(rows)
    ensures var before := Origins(rows + [Some(xs)]);
            Origins(rows + [Some(xs + [x])]) == before + if x in before then [] else [x]
  {
    FlattenMore(rows, None);
    FlattenMore(rows, Some([]));
    FlattenMore(rows, Some(xs));
    FlattenMore(rows, Some(xs + [x]));
    var front := Flatten(rows) + xs;
    assert Flatten(rows) + [] == Flatten(rows);
    assert Flatten(rows) + (xs + [x]) == front + [x] && (front + [x])[..|front|] == front;
  }

  lemma {:induction false} InFlatten(rows: Rows, o: string)
    ensures o in Flatten(rows) <==> exists r :: r in rows && r.Some? && o in r.value
  {
    if rows == [] {
    } else {
      InFlatten(rows[1..], o);
      assert rows == [rows[0]] + rows[1..];
      if o in Flatten(rows[1..]) {
        var r :| r in rows[1..] && r.Some? && o in r.value;
        assert r in rows;
      }
    }
  }

  // --- Whole runs of calls ------------------------------------------------------

  datatype Call = Call(now: int, result: Option<Rows>)

  /** What a refreshing call stores. */
  function EntryOf(call: Call): Cache
    requires call.result.Some?
  {
    Cache(Origins(call.result.value), call.now + TTL)
  }

  function CacheAfter(calls: seq<Call>): Option<Cache> {
    if calls == [] then None
    else Answer(CacheAfter(calls[..|calls| - 1]), calls[|calls| - 1].now, calls[|calls| - 1].result).2
  }

  /** What call `i` of the run answers, and whether it queries. */
  function AnswerOf(calls: seq<Call>, i: nat): (seq<string>, bool)
    requires i < |calls|
  {
    var (answer, queried, _) := Answer(CacheAfter(calls[..i]), calls[i].now, calls[i].result);
    (answer, queried)
  }

  ghost predicate ClockRuns(calls: seq<Call>) { forall i, j :: 0 <= i < j < |calls| ==> calls[i].now <= calls[j].now }

  /** Stated without the cache: call `i` must ask the database, because every earlier call that
      got a new result from it began at least thirty minutes ago. */
  ghost predicate MustQuery(calls: seq<Call>, i: nat)
    requires i < |calls|
    decreases i, 1
  {
    forall j: nat :: j < i && Refreshes(calls, j) ==> calls[i].now >= calls[j].now + 1_800_000
  }

  /** Call `j` asks the database and gets a result. */
  ghost predicate Refreshes(calls: seq<Call>, j: nat)
    requires j < |calls|
    decreases j, 2
  {
    MustQuery(calls, j) && calls[j].result.Some?
  }

  /** `j` is the last refreshing call before `i`. */
  ghost predicate LastRefresh(calls: seq<Call>, i: nat, j: nat)
    requires i <= |calls|
  {
    j < i && Refreshes(calls, j) && forall k: nat :: j < k < i ==> !Refreshes(calls, k)
  }

  ghost predicate NoRefresh(calls: seq<Call>, i: nat)
    requires i <= |calls|
  {
    forall k: nat :: k < i ==> !Refreshes(calls, k)
  }

  /** The cache always holds the last refreshing call's result with its expiry, or nothing before the first one. */
  lemma {:induction false} CacheIsLastRefresh(calls: seq<Call>, i: nat)
    requires ClockRuns(calls) && i <= |calls|
    ensures CacheAfter(calls[..i]) == None ==> NoRefresh(calls, i)
    ensures CacheAfter(calls[..i]).Some? ==>
              exists j: nat :: LastRefresh(calls, i, j)
                               && CacheAfter(calls[..i]).value == EntryOf(calls[j])
  {
    if i == 0 {
    } else {
      CacheIsLastRefresh(calls, i - 1);
      assert calls[..i][..i - 1] == calls[..i - 1];
      var cache := CacheAfter(calls[..i - 1]);
      QueryExactlyWhenStale(calls, i - 1);
      if cache.Some? {
        var j: nat :| LastRefresh(calls, i - 1, j) && cache.value == EntryOf(calls[j]);
        if !Refreshes(calls, i - 1) { assert LastRefresh(calls, i, j); }
      }
      if Refreshes(calls, i - 1) { assert LastRefresh(calls, i, i - 1); }
    }
  }

  lemma {:induction false} QueryExactlyWhenStale(calls: seq<Call>, i: nat)
    requires ClockRuns(calls) && i < |calls|
    requires CacheAfter(calls[..i]) == None ==> NoRefresh(calls, i)
    requires CacheAfter(calls[..i]).Some? ==>
               exists j: nat :: LastRefresh(calls, i, j)
                                && CacheAfter(calls[..i]).value == EntryOf(calls[j])
    ensures !Fresh(CacheAfter(calls[..i]), calls[i].now) <==> MustQuery(calls, i)
  {
    var cache := CacheAfter(calls[..i]);
    if cache.Some? {
      var j: nat :| LastRefresh(calls, i, j) && cache.value == EntryOf(calls[j]);
      forall k: nat | k < i && Refreshes(calls, k) ensures calls[k].now <= calls[j].now {
        assert k <= j;
      }
    }
  }

  /** Over any run of calls on a running clock: a query runs exactly when no result is younger than the lifetime;
      an answer without a query is the result of the last refreshing call, begun less than the lifetime earlier;
      after a failed query the answer is the last refreshing call's result, or empty if there is none. */
  lemma EveryAnswer(calls: seq<Call>, i: nat)
    requires ClockRuns(calls) && i < |calls|
    ensures AnswerOf(calls, i).1 <==> MustQuery(calls, i)
    ensures Refreshes(calls, i) ==> AnswerOf(calls, i).0 == Origins(calls[i].result.value)
    ensures !Refreshes(calls, i) && NoRefresh(calls, i) ==> AnswerOf(calls, i).0 == []
    ensures !Refreshes(calls, i) && !NoRefresh(calls, i) ==>
              exists j: nat :: LastRefresh(calls, i, j) && AnswerOf(calls, i).0 == Origins(calls[j].result.value)
                               && (!MustQuery(calls, i) ==> calls[i].now < calls[j].now + 1_800_000)
  {
    CacheIsLastRefresh(calls, i);
    QueryExactlyWhenStale(calls, i);
    if CacheAfter(calls[..i]).Some? {
      var j: nat :| LastRefresh(calls, i, j)
                    && CacheAfter(calls[..i]).value == EntryOf(calls[j]);
      assert !NoRefresh(calls, i);
    }
  }
}
