/** Cursor pagination over the events API (apps/api/src/service.ts:60-102). The server is a function from the
    number of the request and the cursor sent to a response, so it may change its mind between requests. */
module InngestEvents {
  import opened Ordering

  datatype Payload = Payload(serverId: Option<string>, body: string)
  datatype Event = Event(id: string, name: string, data: Option<Payload>, ts: int, internalId: Option<string>)

  /** `data` is None when the body has no array there. */
  datatype Body = Body(data: Option<seq<Event>>, cursor: Option<string>, nextCursor: Option<string>)
  datatype Response = HttpError | Ok(body: Body)

  const PAGE_LIMIT := 100
  const MAX_EVENTS := 500

  type Server = (nat, Option<string>) -> Response

  function Data(b: Body): seq<Event> { match b.data case Some(d) => d case None => [] }

  /** Where to go on: the cursor given in the body under either of its names, or else the last event's internal id. */
  function NextCursor(b: Body): Option<string> {
    if b.cursor.Some? then b.cursor
    else if b.nextCursor.Some? then b.nextCursor
    else if Data(b) != [] then Data(b)[|Data(b)| - 1].internalId
    else None
  }

  predicate Truthy(c: Option<string>) { c.Some? && c.value != "" }

  function Min(a: nat, b: nat): nat { if a < b then a else b }

  /** A client that has the body `b` goes on at cursor `c`: the body's `cursor`, without one its `nextCursor`, and
      without either the internal id of the last event. */
  ghost predicate GoesOnAt(b: Body, c: string) {
    && c != ""
    && (b.cursor.Some? ==> b.cursor == Some(c))
    && (b.cursor.None? && b.nextCursor.Some? ==> b.nextCursor == Some(c))
    && (b.cursor.None? && b.nextCursor.None? ==>
          b.data.Some? && b.data.value != [] && b.data.value[|b.data.value| - 1].internalId == Some(c))
  }

  lemma NextCursorGoesOn(b: Body)
    ensures forall c :: GoesOnAt(b, c) <==> NextCursor(b) == Some(c) && Truthy(NextCursor(b))
  {
  }

  /** Where in the feed a request with cursor `c` starts. */
  function Offset(pos: string -> nat, c: Option<string>, size: nat): nat {
    match c case None => 0 case Some(x) => Min(pos(x), size)
  }

  /** The events that a body gives; None and the empty list are the same. */
  ghost predicate Gives(b: Body, events: seq<Event>) { b.data == Some(events) || (b.data.None? && events == []) }

  /** The server pages through `feed`: `pos` gives the place in the feed that a cursor stands for, a page that is
      answered holds the next hundred events or the rest, and the cursor of a full page stands for its end. */
  ghost predicate Paged(serve: Server, feed: seq<Event>, pos: string -> nat) {
    forall k: nat, c: Option<string> :: serve(k, c).Ok? ==>
      PageAt(serve(k, c).body, feed, pos, Offset(pos, c, |feed|))
  }

  ghost predicate PageAt(b: Body, feed: seq<Event>, pos: string -> nat, o: nat)
    requires o <= |feed|
  {
    && Gives(b, feed[o..Min(o + 100, |feed|)])
    && (|feed| >= o + 100 ==> forall c :: GoesOnAt(b, c) ==> pos(c) == o + 100)
  }

  /** The response is an error, or a full page without a cursor to go on. */
  ghost predicate Stops(r: Response) {
    r.HttpError? || (r.body.data.Some? && |r.body.data.value| == 100 && !exists c :: GoesOnAt(r.body, c))
  }

  /** No request fails, and every full page comes with a cursor. */
  ghost predicate Reliable(serve: Server) { forall k: nat, c: Option<string> :: !Stops(serve(k, c)) }

  /** Such a server exists for every feed: cursors are as long as the place they stand for. */
  lemma SomeServer(feed: seq<Event>) returns (serve: Server, pos: string -> nat)
    ensures Paged(serve, feed, pos) && Reliable(serve)
  {
    var length: string -> nat := c => |c|;
    pos := length;
    serve := (k: nat, c: Option<string>) =>
      var o := Offset(length, c, |feed|);
      Ok(Body(Some(feed[o..Min(o + 100, |feed|)]), Some(seq(o + 100, i => 'x')), None));
    forall k: nat, c: Option<string> ensures !Stops(serve(k, c)) {
      assert GoesOnAt(serve(k, c).body, seq(Offset(pos, c, |feed|) + 100, i => 'x'));
    }
  }

  /** Behind a prefix of the feed the next page gives a longer prefix. */
  lemma PageGrows(before: seq<Event>, b: Body, feed: seq<Event>, pos: string -> nat)
    requires before <= feed && PageAt(b, feed, pos, |before|)
    ensures before + Data(b) == feed[..Min(|before| + 100, |feed|)]
  {
    assert feed[..|before|] == before;
  }

  /** `fetchInngestEvents`. Against any server at most five requests are made. Against a server that pages through
      a feed the result is a prefix of it, of full length unless the last response was an error or lacked a cursor. */
  method FetchInngestEvents(serve: Server, ghost feed: seq<Event>, ghost pos: string -> nat)
    returns (events: seq<Event>, requests: nat, ghost last: Option<string>)
    ensures 1 <= requests <= 5 && |events| <= 500
    ensures Paged(serve, feed, pos) ==> events <= feed
    ensures Paged(serve, feed, pos) ==>
              || |events| == Min(500, |feed|)
              || (Stops(serve(requests - 1, last)) && |events| <= 100 * requests)
    ensures Paged(serve, feed, pos) && Reliable(serve) ==> |events| == Min(500, |feed|)
  {
    var all: seq<Event> := [];
    var cursor: Option<string> := None;
    requests := 0;
    last := None;
    var more := true;
    while more
      invariant more ==> |all| == PAGE_LIMIT * requests && requests < MAX_EVENTS / PAGE_LIMIT
      invariant !more ==> 1 <= requests <= MAX_EVENTS / PAGE_LIMIT
      invariant Paged(serve, feed, pos) ==> all <= feed
      invariant Paged(serve, feed, pos) && more ==> Offset(pos, cursor, |feed|) == |all|
      invariant Paged(serve, feed, pos) && !more ==>
                  || |all| >= Min(MAX_EVENTS, |feed|)
                  || (Stops(serve(requests - 1, last)) && |all| <= PAGE_LIMIT * requests)
      decreases more, MAX_EVENTS - |all|
    {
      var res := serve(requests, cursor);
      last := cursor;
      requests := requests + 1;
      if res.HttpError? { more := false; break; }
      var data := Data(res.body);
      ghost var before := all;
      NextCursorGoesOn(res.body);
      all := all + data;
      if Paged(serve, feed, pos) { PageGrows(before, res.body, feed, pos); }
      var nextCursor := NextCursor(res.body);
      var hasMore := |data| == PAGE_LIMIT && Truthy(nextCursor) && |all| < MAX_EVENTS;
      cursor := if hasMore then nextCursor else None;
      more := cursor.Some?;
    }
    events := all[..Min(|all|, MAX_EVENTS)];
  }
}
