/**
 * The WebSocket mark-price service: a set of subscribed symbols, at most one
 * stream connection per symbol, and a price cache that every
 * "markPriceUpdate" message overwrites.  Threads, sockets and the
 * reconnect supervisor are outside the model; the wall clock is the `now`
 * parameter in milliseconds.
 */
module PriceFeed {
  import opened Common

  /** A cached price is served while it is younger than 5.0 seconds. */
  const FreshnessMs: int := 5000

  /** A decoded stream message; `Malformed` is text that is not a JSON object. */
  datatype WsMessage =
    | Malformed
    | Payload(event: Option<string>, symbol: Option<string>, price: Option<string>, eventTime: Option<int>)

  function OrElse(x: Option<string>, d: string): string
  {
    if x.Some? then x.value else d
  }

  /**
   * The cache after one message: only a "markPriceUpdate" whose upper-cased
   * symbol and price text are non-empty and whose price text parses is
   * written, stamped with the arrival time `now`; everything else leaves
   * the cache as it was.
   */
  function ApplyMessage(cache: map<string, (real, int)>, msg: WsMessage, now: int,
                        parse: string -> Option<real>): map<string, (real, int)>
  {
    match msg
    case Malformed => cache
    case Payload(e, s, p, _) =>
      var sym := Upper(OrElse(s, ""));
      var text := OrElse(p, "0");
      if e == Some("markPriceUpdate") && sym != "" && text != "" && parse(text).Some?
      then cache[sym := (parse(text).value, now)]
      else cache
  }

  /** Two accepted updates for one symbol: the later arrival wins, whatever the clocks say. */
  lemma {:induction false} LastWriteWins(cache: map<string, (real, int)>, m1: WsMessage, t1: int,
                                         m2: WsMessage, t2: int, parse: string -> Option<real>)
    requires m1.Payload? && m2.Payload? && m2.event == Some("markPriceUpdate")
    requires m2.symbol.Some? && Upper(m2.symbol.value) != ""
    requires m2.price.Some? && m2.price.value != "" && parse(m2.price.value).Some?
    ensures var c := ApplyMessage(ApplyMessage(cache, m1, t1, parse), m2, t2, parse);
            Upper(m2.symbol.value) in c && c[Upper(m2.symbol.value)] == (parse(m2.price.value).value, t2)
  {
  }

  /** The event time carried in a message never influences the cache. */
  lemma {:induction false} EventTimeIgnored(cache: map<string, (real, int)>, e: Option<string>, s: Option<string>,
                                            p: Option<string>, ta: Option<int>, tb: Option<int>, now: int,
                                            parse: string -> Option<real>)
    ensures ApplyMessage(cache, Payload(e, s, p, ta), now, parse) == ApplyMessage(cache, Payload(e, s, p, tb), now, parse)
  {
  }

  /** A message with no "p" field caches the price parsed from "0". */
  lemma {:induction false} MissingPriceCachesZero(cache: map<string, (real, int)>, s: string, now: int,
                                                  parse: string -> Option<real>)
    requires Upper(s) != "" && parse("0") == Some(0.0)
    ensures ApplyMessage(cache, Payload(Some("markPriceUpdate"), Some(s), None, None), now, parse)[Upper(s)] == (0.0, now)
  {
  }

  class MarkPriceStream {
    var running: bool
    var subscribed: set<string>
    /** symbol -> serial number of its stream connection */
    var connections: map<string, nat>
    /** number of stream connections opened so far */
    var nextSerial: nat
    /** symbol -> (price, arrival time in ms) */
    var cache: map<string, (real, int)>

    ghost predicate Valid()
      reads this
    {
      && connections.Keys <= subscribed
      && (!running ==> connections == map[])
      && (forall s :: s in subscribed ==> Upper(s) == s)
      && (forall s :: s in cache ==> Upper(s) == s)
      && (forall s :: s in connections ==> connections[s] < nextSerial)
    }

    constructor ()
      ensures Valid() && !running && subscribed == {} && connections == map[] && cache == map[]
    {
      running := false;
      subscribed := {};
      connections := map[];
      nextSerial := 0;
      cache := map[];
    }

    /**
     * `start`: a no-op while running; otherwise the subscription set becomes
     * the upper-cased, de-duplicated symbols (empty for None) and the service runs.
     */
    method Start(symbols: Option<seq<string>>)
      requires Valid()
      modifies this
      ensures Valid()
      ensures old(running) ==> subscribed == old(subscribed) && running
      ensures !old(running) ==>
        running && subscribed == (if symbols.None? then {} else set i | 0 <= i < |symbols.value| :: Upper(symbols.value[i]))
      ensures connections == old(connections) && cache == old(cache) && nextSerial == old(nextSerial)
    {
      if running {
        return;
      }
      var wanted: set<string> := {};
      if symbols.Some? {
        wanted := set i | 0 <= i < |symbols.value| :: Upper(symbols.value[i]);
        forall s | s in wanted ensures Upper(s) == s {
          var i :| 0 <= i < |symbols.value| && s == Upper(symbols.value[i]);
          UpperIdempotent(symbols.value[i]);
        }
      }
      subscribed := wanted;
      running := true;
    }

    /** `stop`: clears the running flag and drops every connection; subscriptions and prices stay. */
    method Stop()
      requires Valid()
      modifies this
      ensures Valid()
      ensures !running && connections == map[]
      ensures subscribed == old(subscribed) && cache == old(cache) && nextSerial == old(nextSerial)
    {
      running := false;
      connections := map[];
    }

    /** `_connect_symbol`: opens a connection only when the symbol has none. */
    method ConnectSymbol(symbol: string)
      requires Valid() && running && symbol in subscribed
      modifies this
      ensures Valid()
      ensures symbol in old(connections) ==> connections == old(connections) && nextSerial == old(nextSerial)
      ensures symbol !in old(connections) ==>
        connections == old(connections)[symbol := old(nextSerial)] && nextSerial == old(nextSerial) + 1
      ensures running && subscribed == old(subscribed) && cache == old(cache)
    {
      if symbol in connections {
        return;
      }
      connections := connections[symbol := nextSerial];
      nextSerial := nextSerial + 1;
    }

    /**
     * `subscribe_symbol`: upper-cases the symbol; a no-op when it is already
     * subscribed; otherwise adds it and connects only while running.
     */
    method Subscribe(symbol: string)
      requires Valid()
      modifies this
      ensures Valid()
      ensures subscribed == old(subscribed) + {Upper(symbol)}
      ensures Upper(symbol) in old(subscribed) ==> connections == old(connections) && nextSerial == old(nextSerial)
      ensures Upper(symbol) !in old(subscribed) && old(running) ==>
        connections == old(connections)[Upper(symbol) := old(nextSerial)] && nextSerial == old(nextSerial) + 1
      ensures !old(running) ==> connections == old(connections) && nextSerial == old(nextSerial)
      ensures running == old(running) && cache == old(cache)
    {
      var u := Upper(symbol);
      UpperIdempotent(symbol);
      if u in subscribed {
        return;
      }
      subscribed := subscribed + {u};
      if running {
        ConnectSymbol(u);
      }
    }

    /**
     * `unsubscribe_symbol`: a no-op for a symbol that is not subscribed;
     * otherwise drops its connection and its subscription and keeps its
     * cached price.
     */
    method Unsubscribe(symbol: string)
      requires Valid()
      modifies this
      ensures Valid()
      ensures subscribed == old(subscribed) - {Upper(symbol)}
      ensures connections == old(connections) - {Upper(symbol)}
      ensures cache == old(cache) && running == old(running) && nextSerial == old(nextSerial)
    {
      var u := Upper(symbol);
      if u !in subscribed {
        return;
      }
      if u in connections {
        connections := connections - {u};
      }
      subscribed := subscribed - {u};
    }

    /** The cached price of a symbol if it arrived less than 5 s before `now`. */
    function FreshPrice(symbol: string, now: int): (p: Option<real>)
      reads this
      ensures p.Some? <==> Upper(symbol) in cache && now - cache[Upper(symbol)].1 < FreshnessMs
      ensures p.Some? ==> p.value == cache[Upper(symbol)].0
    {
      var u := Upper(symbol);
      if u in cache && now - cache[u].1 < FreshnessMs then Some(cache[u].0) else None
    }

    /**
     * `get_price`: the fresh cached price or None; on a miss, a running
     * service subscribes a symbol it was not yet subscribed to.
     */
    method GetPrice(symbol: string, now: int) returns (p: Option<real>)
      requires Valid()
      modifies this
      ensures Valid()
      ensures p == old(FreshPrice(symbol, now))
      ensures p.Some? ==> subscribed == old(subscribed) && connections == old(connections)
      ensures p.None? && old(running) ==> subscribed == old(subscribed) + {Upper(symbol)}
      ensures p.None? && old(running) && Upper(symbol) !in old(subscribed) ==>
        connections == old(connections)[Upper(symbol) := old(nextSerial)]
      ensures Upper(symbol) in old(subscribed) ==> subscribed == old(subscribed) && connections == old(connections)
      ensures !old(running) ==> subscribed == old(subscribed) && connections == old(connections)
      ensures cache == old(cache) && running == old(running)
    {
      p := FreshPrice(symbol, now);
      if p.Some? {
        return;
      }
      var u := Upper(symbol);
      if u !in subscribed && running {
        Subscribe(u);
        UpperIdempotent(symbol);
      }
    }

    /** `get_all_prices`: exactly the cache entries younger than 5 s. */
    function AllFreshPrices(now: int): (m: map<string, real>)
      reads this
      ensures forall s :: s in m <==> s in cache && now - cache[s].1 < FreshnessMs
      ensures forall s :: s in m ==> m[s] == cache[s].0
    {
      map s | s in cache && now - cache[s].1 < FreshnessMs :: cache[s].0
    }

    /** `is_price_available`: the same 5 s test on one upper-cased symbol. */
    predicate IsPriceAvailable(symbol: string, now: int)
      reads this
    {
      var u := Upper(symbol);
      u in cache && now - cache[u].1 < FreshnessMs
    }

    /** `on_message`: applies one stream message to the cache; failures are swallowed. */
    method OnMessage(msg: WsMessage, now: int, parse: string -> Option<real>)
      requires Valid()
      modifies this
      ensures Valid()
      ensures cache == ApplyMessage(old(cache), msg, now, parse)
      ensures subscribed == old(subscribed) && connections == old(connections) && running == old(running)
    {
      if msg.Malformed? {
        return;
      }
      if msg.event != Some("markPriceUpdate") {
        return;
      }
      var sym := Upper(OrElse(msg.symbol, ""));
      var text := OrElse(msg.price, "0");
      if sym != "" && text != "" {
        var parsed := parse(text);
        if parsed.Some? {
          UpperIdempotent(OrElse(msg.symbol, ""));
          cache := cache[sym := (parsed.value, now)];
        }
      }
    }
  }

  /**
   * `get_all_prices` and `is_price_available` agree, and `get_price` serves
   * exactly the prices `get_all_prices` lists.
   */
  lemma AvailabilityAgrees(feed: MarkPriceStream, symbol: string, now: int)
    requires feed.Valid()
    ensures feed.IsPriceAvailable(symbol, now) <==> Upper(symbol) in feed.AllFreshPrices(now)
    ensures feed.IsPriceAvailable(symbol, now) <==> feed.FreshPrice(symbol, now).Some?
    ensures feed.FreshPrice(symbol, now).Some? ==>
      feed.FreshPrice(symbol, now).value == feed.AllFreshPrices(now)[Upper(symbol)]
  {
  }
}
