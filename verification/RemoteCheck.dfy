/** A limiter check over the real client: what happens to its two commands is what the client's
    exchanges make of them (ratelimit.go over redis_resp.go). */
module RemoteCheck {
  import opened Text
  import opened Resp
  import opened RedisClient
  import opened RateLimit
  import Keys

  /** If the server gets this INCR it counts it and replies with the count, or refuses it. */
  predicate AnswersIncr(x: Exchange, store: Store, key: string, now: nat) {
    x.Answered? ==> x.reply == Integer(CountAfterIncr(store, key, now)) || x.reply.Failure?
  }

  /** If the server gets this EXPIRE it applies it and replies with an integer, or refuses it. */
  predicate AnswersExpire(x: Exchange) {
    x.Answered? ==> x.reply.Integer? || x.reply.Failure?
  }

  /** The fate of a command in the limiter's terms: it landed if the client sent it and the server
      applied it, and it was heard if the whole reply arrived. */
  function FateOf(r: Result, x: Exchange): Fate {
    if r.Replied? && x.Answered? && x.reply.Integer? then Landed(x.missing == 0) else Lost
  }

  /** One gateway's limiter with its client. The server is the shared Redis; `incr` and `expire` are
      the fates its two commands met. */
  class RateLimiter {
    const prefix: string
    const client: RespRedis
    const server: Server

    constructor (prefix: string, client: RespRedis, server: Server)
      ensures this.prefix == prefix && this.client == client && this.server == server
    {
      this.prefix, this.client, this.server := prefix, client, server;
    }

    /** One INCR: the count heard is the server's, and none is heard unless this very reply arrived
        whole. */
    method Incr(redisKey: string, w: World) returns (count: Option<int>, fate: Fate)
      requires client.Valid() && WorldOk(w) && client.clock <= w.now
      requires AnswersIncr(w.exchange, server.store, redisKey, server.now)
      modifies client, client.conn, if client.conn != null then {client.conn.rd} else {}, server`store
      ensures client.Valid() && client.clock == w.after
      ensures client.conn != null ==>
                (fresh(client.conn) && fresh(client.conn.rd)) || client.conn == old(client.conn)
      ensures server.store == if fate.Landed? then AfterIncr(old(server.store), redisKey, server.now)
                              else old(server.store)
      ensures count == if fate == Landed(true) then Some(CountAfterIncr(old(server.store), redisKey, server.now))
                       else None
      ensures fate == Landed(true) ==>
                w.exchange == Answered(Integer(CountAfterIncr(old(server.store), redisKey, server.now)), 0)
    {
      hide RespRedis.Valid;
      var replied;
      count, replied := client.Incr(redisKey, w);
      fate := FateOf(replied, w.exchange);
      var counted := server.Incr(redisKey, fate);
      assert counted == count;
    }

    method Expire(redisKey: string, seconds: int, w: World) returns (ok: bool, fate: Fate)
      requires seconds >= 0
      requires client.Valid() && WorldOk(w) && client.clock <= w.now && AnswersExpire(w.exchange)
      modifies client, client.conn, if client.conn != null then {client.conn.rd} else {}, server`store
      ensures client.Valid() && client.clock == w.after
      ensures server.store == if fate.Landed? then AfterExpire(old(server.store), redisKey, seconds, server.now)
                              else old(server.store)
      ensures ok == (fate == Landed(true))
    {
      hide RespRedis.Valid;
      var answered;
      ok, answered := client.Expire(redisKey, seconds, w);
      fate := FateOf(answered, w.exchange);
      var applied := server.Expire(redisKey, seconds, fate);
      assert applied == ok;
    }

    /** A check hears a count only from the reply to its own INCR, and with the fates that its
        exchanges make it is a run of the limiter's machine: whatever was late, lost or refused on the
        connection before. */
    method Check(key: string, endpoint: string, limit: int, windowSeconds: int, w1: World, w2: World)
      returns (res: CheckResult, incr: Fate, expire: Fate)
      requires client.Valid() && WorldOk(w1) && WorldOk(w2)
      requires client.clock <= w1.now && w1.after <= w2.now
      requires var window := WindowStart(server.now, windowSeconds);
               AnswersIncr(w1.exchange, server.store, Keys.RedisKey(prefix, key, endpoint, Unix(window)), server.now)
      requires AnswersExpire(w2.exchange)
      modifies client, client.conn, if client.conn != null then {client.conn.rd} else {}, server`store
      ensures client.Valid()
      ensures incr == Landed(true) ==>
                w1.exchange == Answered(Integer(CountAfterIncr(
                  old(server.store),
                  Keys.RedisKey(prefix, key, endpoint, Unix(WindowStart(server.now, windowSeconds))), server.now)), 0)
      ensures limit <= 0 ==> res == Checked(false, 0, 0, 0) && server.store == old(server.store)
      ensures limit > 0 ==>
                var l := Limiter(prefix, key, endpoint, limit, windowSeconds);
                var s := RunCheck(l, State(server.now, old(server.store), map[], []), 0, incr, expire);
                && server.store == s.store
                && 0 in s.calls && s.calls[0].Finished?
                && res == (if s.calls[0].verdict.Errored? then CheckError
                           else l.Judge(s.calls[0].verdict.count, s.calls[0].window))
    {
      hide RespRedis.Valid;
      incr, expire := Lost, Lost;
      if limit <= 0 {
        return Checked(false, 0, 0, 0), incr, expire;
      }
      var window := WindowStart(server.now, windowSeconds);
      var redisKey := Keys.RedisKey(prefix, key, endpoint, Unix(window));
      var count;
      count, incr := Incr(redisKey, w1);
      if count.None? {
        return CheckError, incr, expire;
      }
      if count.value == 1 {
        var ok;
        ok, expire := Expire(redisKey, TtlSeconds(windowSeconds), w2);
        if !ok {
          return CheckError, incr, expire;
        }
      }
      var remaining := limit - count.value;
      if remaining < 0 {
        remaining := 0;
      }
      res := Checked(count.value <= limit, remaining, limit, window + windowSeconds * SECOND);
    }
  }
}
