/** The self-healing Redis connection: lazy dialing with backoff, and one reply per command
    (redis_resp.go). Times are milliseconds. */
module RedisClient {
  import opened Text
  import opened Decimal
  import opened Resp

  const REDIAL_BACKOFF := 2000

  /** What the network does to one command. In `Answered` the server received the command and
      answered `reply`; when the deadline passes, the last `missing` bytes of everything the
      server has written on the connection have not arrived. */
  datatype Exchange =
    | WriteFails
    | FlushFails
    | Answered(reply: Reply, missing: nat)

  /** What a dial meets: nobody listening, or a server and the fate of the handshake commands. */
  datatype Dialed =
    | Refused
    | Accepted(auth: Exchange, select: Exchange, ping: Exchange)

  /** What the world does during one call: the clock at its start and when a dial has ended. */
  datatype World = World(now: int, after: int, dialed: Dialed, exchange: Exchange)

  datatype Dial = Dial(start: int, end: int, ok: bool)

  datatype Result =
    | Replied(outcome: Outcome)
    | DialFailed(outcome: Outcome)
    | BackingOff

  predicate ExchangeOk(x: Exchange) {
    x.Answered? ==> WellFormed(x.reply)
  }

  predicate DialedOk(d: Dialed) {
    d.Accepted? ==> ExchangeOk(d.auth) && ExchangeOk(d.select) && ExchangeOk(d.ping)
  }

  predicate WorldOk(w: World) {
    w.now <= w.after && ExchangeOk(w.exchange) && DialedOk(w.dialed)
  }

  /** The reply to this very command if all of it arrived, an I/O error otherwise. */
  function OwnReply(x: Exchange): Outcome {
    if x.Answered? && x.missing == 0 then Meaning(x.reply) else IoError
  }

  function HandshakeCommands(pwd: string, db: int): seq<seq<string>> {
    var auth := if pwd != "" then [["AUTH", pwd]] else [];
    var select := if db != 0 then [["SELECT", Print(db)]] else [];
    auth + select + [["PING"]]
  }

  function HandshakeOutcome(pwd: string, db: int, d: Dialed): Outcome {
    if d.Refused? then IoError
    else if pwd != "" && !OwnReply(d.auth).Done? then OwnReply(d.auth)
    else if db != 0 && !OwnReply(d.select).Done? then OwnReply(d.select)
    else OwnReply(d.ping)
  }

  /** A handshake authenticates first if there is a password, selects a database other than 0, and ends
      with a ping. */
  lemma HandshakeMeaning(pwd: string, db: int)
    ensures HandshakeCommands("", 0) == [["PING"]]
    ensures pwd != "" ==> HandshakeCommands(pwd, 0) == [["AUTH", pwd], ["PING"]]
    ensures db != 0 ==> HandshakeCommands("", db) == [["SELECT", Print(db)], ["PING"]]
    ensures pwd != "" && db != 0 ==>
              HandshakeCommands(pwd, db) == [["AUTH", pwd], ["SELECT", Print(db)], ["PING"]]
  {
  }

  /** The reply arrived whole and is no error. */
  predicate AnsweredWell(x: Exchange) {
    x.Answered? && x.missing == 0 && !x.reply.Failure?
  }

  /** It succeeds if and only if somebody listens and every command it sends is answered well. */
  lemma HandshakeDoneIff(pwd: string, db: int, d: Dialed)
    ensures HandshakeOutcome(pwd, db, d).Done? <==>
            d.Accepted? && (pwd != "" ==> AnsweredWell(d.auth)) && (db != 0 ==> AnsweredWell(d.select))
            && AnsweredWell(d.ping)
  {
  }

  /** What a call hears of an exchange: its own reply when that arrived whole, else an I/O error. */
  lemma OwnReplyMeaning(x: Exchange)
    ensures x.Answered? && x.missing == 0 ==>
              OwnReply(x) == match x.reply
                case Status(text) => Done(Str(text))
                case Failure(text) => RedisError(text)
                case Integer(n) => Done(Int(n))
                case Bulk(data) => Done(Str(data))
                case NilBulk => Done(Nil)
    ensures !x.Answered? || x.missing > 0 ==> OwnReply(x) == IoError
  {
  }

  /** A call ends with the client's connection dropped unless the reply was readable. */
  predicate KeepsConnection(o: Outcome) {
    o.Done? || o.RedisError?
  }

  /** One TCP connection: the commands the server has received, the reply it gave to each, and
      the client's reader over the bytes of those replies that have arrived. */
  class Connection {
    var commands: seq<seq<string>>
    var answers: seq<Reply>
    const rd: Reader

    ghost predicate Valid()
      reads this, rd
    {
      && |commands| == |answers|
      && (forall r <- answers :: WellFormed(r))
      && rd.Valid()
      && rd.data <= EncodeAll(answers)
    }

    /** Every reply to every command so far has arrived and been consumed. */
    ghost predicate Aligned()
      reads this, rd
    {
      Valid() && rd.data == EncodeAll(answers) && rd.pos == |rd.data|
    }

    constructor ()
      ensures Aligned() && commands == [] && fresh(rd)
    {
      commands, answers := [], [];
      rd := new Reader();
    }

    /** The server receives a command and answers it; the last `missing` bytes of its output do
        not arrive in time. */
    method Deliver(args: seq<string>, reply: Reply, missing: nat)
      requires Aligned() && WellFormed(reply)
      modifies this, rd`data
      ensures Valid()
      ensures commands == old(commands) + [args] && answers == old(answers) + [reply]
      ensures rd.pos == old(rd.pos)
      ensures missing == 0 ==> rd.Rest() == Encode(reply)
      ensures missing > 0 ==> exists k :: 0 <= k < |Encode(reply)| && rd.Rest() == Encode(reply)[..k]
    {
      ghost var before := EncodeAll(answers);
      commands, answers := commands + [args], answers + [reply];
      assert answers[..|answers| - 1] == old(answers);
      var all := EncodeAll(answers);
      assert all == before + Encode(reply);
      var k := if missing <= |all| - |rd.data| then |all| - missing else |rd.data|;
      rd.data := all[..k];
      TakeOfConcat(before, Encode(reply), k);
    }
  }

  /** The client. `conn` is nil before the first dial and after any I/O error. */
  class RespRedis {
    const pwd: string
    const db: int
    var conn: Connection?
    var retryAt: int
    var dials: seq<Dial>  // every dial so far, oldest first
    var clock: int        // the latest time seen

    /** No dial starts sooner than the backoff after an earlier one failed. */
    predicate DialsSpaced()
      reads this
    {
      forall i, j :: 0 <= i < j < |dials| && !dials[i].ok ==>
        dials[i].end + REDIAL_BACKOFF <= dials[j].start
    }

    /** What holds between calls. */
    ghost predicate Valid()
      reads this, conn, if conn != null then {conn.rd} else {}
    {
      && (conn != null ==> conn.Aligned())
      && DialsSpaced()
      && (forall i :: 0 <= i < |dials| ==>
            dials[i].start <= dials[i].end <= clock
            && (!dials[i].ok ==> dials[i].end + REDIAL_BACKOFF <= retryAt))
    }

    constructor (pwd: string, db: int, now: int)
      ensures Valid() && conn == null && dials == [] && clock == now && retryAt <= now
      ensures this.pwd == pwd && this.db == db
    {
      this.pwd, this.db := pwd, db;
      conn, retryAt, dials, clock := null, now, [], now;
    }

    /** Send one command and read its reply. */
    method RoundTrip(args: seq<string>, x: Exchange) returns (o: Outcome)
      requires conn != null && conn.Aligned() && ExchangeOk(x)
      modifies conn, conn.rd
      ensures o == OwnReply(x)
      ensures KeepsConnection(o) ==>
                && conn.Aligned()
                && conn.commands == old(conn.commands) + [args]
                && conn.answers == old(conn.answers) + [x.reply]
    {
      if !x.Answered? {
        return IoError;
      }
      conn.Deliver(args, x.reply, x.missing);
      ghost var bytes := conn.rd.Rest();
      o := ReadRespReply(conn.rd);
      if x.missing == 0 {
        ReplyRoundTrip(bytes, x.reply);
      } else {
        ghost var k :| 0 <= k < |Encode(x.reply)| && bytes == Encode(x.reply)[..k];
        TruncatedReply(x.reply, k);
      }
    }

    method DropConn()
      modifies this`conn
      ensures conn == null
    {
      conn := null;
    }

    /** Dial and run the handshake; on failure the caller drops the connection. */
    method DialAndHandshake(d: Dialed) returns (o: Outcome)
      requires DialedOk(d)
      modifies this`conn
      ensures o == HandshakeOutcome(pwd, db, d)
      ensures o.Done? ==>
                && conn != null && fresh(conn) && fresh(conn.rd)
                && conn.Aligned() && conn.commands == HandshakeCommands(pwd, db)
      ensures conn == null || fresh(conn) || conn == old(conn)
    {
      if d.Refused? {
        return IoError;
      }
      conn := new Connection();
      ghost var auth := if pwd != "" then [["AUTH", pwd]] else [];
      ghost var select := if db != 0 then [["SELECT", Print(db)]] else [];
      if pwd != "" {
        o := RoundTrip(["AUTH", pwd], d.auth);
        if !o.Done? {
          return;
        }
      }
      assert conn.commands == auth;
      if db != 0 {
        o := RoundTrip(["SELECT", Print(db)], d.select);
        if !o.Done? {
          return;
        }
      }
      assert conn.commands == auth + select;
      o := RoundTrip(["PING"], d.ping);
    }

    /** Dial unless the backoff after a failed dial is still running. */
    method Connect(w: World) returns (failed: Option<Result>)
      requires Valid() && conn == null && WorldOk(w) && clock <= w.now
      modifies this
      ensures Valid() && clock == w.after
      ensures w.now < old(retryAt) ==>
                failed == Some(BackingOff) && conn == null && dials == old(dials) && retryAt == old(retryAt)
      ensures w.now >= old(retryAt) ==>
                var o := HandshakeOutcome(pwd, db, w.dialed);
                && dials == old(dials) + [Dial(w.now, w.after, o.Done?)]
                && failed == (if o.Done? then None else Some(DialFailed(o)))
                && (o.Done? ==> retryAt == old(retryAt) && conn != null && fresh(conn) && fresh(conn.rd)
                                && conn.commands == HandshakeCommands(pwd, db))
                && (!o.Done? ==> conn == null && retryAt == w.after + REDIAL_BACKOFF)
    {
      if w.now < retryAt {
        clock := w.after;
        return Some(BackingOff);
      }
      var o := DialAndHandshake(w.dialed);
      dials := dials + [Dial(w.now, w.after, o.Done?)];
      clock := w.after;
      if o.Done? {
        return None;
      }
      DropConn();
      retryAt := w.after + REDIAL_BACKOFF;
      failed := Some(DialFailed(o));
    }

    /** One command: connect if needed, send it, read its reply, and drop the connection unless
        the reply was readable. */
    method Do(args: seq<string>, w: World) returns (r: Result)
      requires Valid() && WorldOk(w) && clock <= w.now
      modifies this, conn, if conn != null then {conn.rd} else {}
      ensures Valid() && clock == w.after
      ensures conn != null ==> (fresh(conn) && fresh(conn.rd)) || conn == old(conn)
      // which of the three ways the call goes
      ensures var dialing := old(conn) == null && w.now >= old(retryAt);
              var shake := HandshakeOutcome(pwd, db, w.dialed);
              && r == (if old(conn) == null && !dialing then BackingOff
                       else if dialing && !shake.Done? then DialFailed(shake)
                       else Replied(OwnReply(w.exchange)))
              && dials == old(dials) + (if dialing then [Dial(w.now, w.after, shake.Done?)] else [])
              && retryAt == (if r.DialFailed? then w.after + REDIAL_BACKOFF else old(retryAt))
      // the connection survives exactly a readable reply, and then this command and its own
      // reply are the last the server and the client have seen
      ensures conn != null <==> r.Replied? && (r.outcome.Done? || r.outcome.RedisError?)
      ensures conn != null ==>
                && conn.commands == (if old(conn) != null then old(conn.commands)
                                     else HandshakeCommands(pwd, db)) + [args]
                && r == Replied(Meaning(conn.answers[|conn.commands| - 1]))
    {
      hide HandshakeOutcome;
      hide EncodeAll;
      if conn == null {
        var failed := Connect(w);
        if failed.Some? {
          return failed.value;
        }
      }
      var o := RoundTrip(args, w.exchange);
      clock := w.after;
      if !KeepsConnection(o) {
        DropConn();
      }
      r := Replied(o);
    }

    /** INCR; only an integer reply is a count. */
    method Incr(key: string, w: World) returns (n: Option<int>, r: Result)
      requires Valid() && WorldOk(w) && clock <= w.now
      modifies this, conn, if conn != null then {conn.rd} else {}
      ensures Valid() && clock == w.after
      ensures r.Replied? ==> r.outcome == OwnReply(w.exchange)
      ensures n.Some? <==> r.Replied? && r.outcome.Done? && r.outcome.v.Int?
      ensures conn != null ==> (fresh(conn) && fresh(conn.rd)) || conn == old(conn)
      ensures n.Some? ==>
                && r == Replied(OwnReply(w.exchange)) && r.outcome.v.n == n.value
                && conn != null && conn.commands != [] && conn.commands[|conn.commands| - 1] == ["INCR", key]
    {
      var res := Do(["INCR", key], w);
      r := res;
      n := match res case Replied(Done(Int(k))) => Some(k) case _ => None;
    }

    /** EXPIRE; any integer reply is success. */
    method Expire(key: string, seconds: int, w: World) returns (ok: bool, r: Result)
      requires Valid() && WorldOk(w) && clock <= w.now
      modifies this, conn, if conn != null then {conn.rd} else {}
      ensures Valid() && clock == w.after
      ensures r.Replied? ==> r.outcome == OwnReply(w.exchange)
      ensures ok <==> r.Replied? && r.outcome.Done? && r.outcome.v.Int?
      ensures conn != null ==> (fresh(conn) && fresh(conn.rd)) || conn == old(conn)
      ensures ok ==>
                && r == Replied(OwnReply(w.exchange))
                && conn != null && conn.commands != []
                && conn.commands[|conn.commands| - 1] == ["EXPIRE", key, Print(seconds)]
    {
      var res := Do(["EXPIRE", key, Print(seconds)], w);
      r := res;
      ok := match res case Replied(Done(Int(_))) => true case _ => false;
    }
  }

  /** The world's moves for a run of calls come with a monotone clock. */
  predicate RunOk(calls: seq<(seq<string>, World)>, start: int) {
    && (forall c <- calls :: WorldOk(c.1))
    && (forall i :: 0 <= i < |calls| ==> start <= calls[i].1.now)
    && (forall i, j :: 0 <= i < j < |calls| ==> calls[i].1.after <= calls[j].1.now)
  }

  /** A new client dials at once; a Redis that is not there yet is no error. */
  method DialRedis(pwd: string, db: int, w: World) returns (r: RespRedis)
    requires WorldOk(w)
    ensures fresh(r) && r.Valid() && r.pwd == pwd && r.db == db && r.clock == w.after
    ensures var o := HandshakeOutcome(pwd, db, w.dialed);
            && r.dials == [Dial(w.now, w.after, o.Done?)]
            && (o.Done? <==> r.conn != null)
            && (o.Done? ==> fresh(r.conn) && fresh(r.conn.rd) && r.conn.commands == HandshakeCommands(pwd, db))
            && (!o.Done? ==> r.retryAt == w.after + REDIAL_BACKOFF)
  {
    r := new RespRedis(pwd, db, w.now);
    var _ := r.Connect(w);
  }

  /** Any run of calls on a new client: every answered call gets the reply to its own command,
      whatever was late, lost or refused before it, and dials stay spaced. */
  method Run(pwd: string, db: int, first: World, calls: seq<(seq<string>, World)>)
    returns (r: RespRedis, results: seq<Result>)
    requires WorldOk(first) && RunOk(calls, first.after)
    ensures r.Valid() && |results| == |calls|
    ensures forall i, j :: 0 <= i < j < |r.dials| && !r.dials[i].ok ==> r.dials[i].end + 2000 <= r.dials[j].start
    ensures forall i :: 0 <= i < |calls| && results[i].Replied? ==>
              results[i].outcome == OwnReply(calls[i].1.exchange)
  {
    hide OwnReply;
    hide HandshakeOutcome;
    hide Connection.Aligned;
    hide RespRedis.Valid;
    r := DialRedis(pwd, db, first);
    results := [];
    for i := 0 to |calls|
      invariant |results| == i && fresh(r) && r.Valid()
      invariant r.conn != null ==> fresh(r.conn) && fresh(r.conn.rd)
      invariant i < |calls| ==> r.clock <= calls[i].1.now
      invariant forall k :: 0 <= k < i && results[k].Replied? ==>
                  results[k].outcome == OwnReply(calls[k].1.exchange)
    {
      assert WorldOk(calls[i].1);
      assert i + 1 < |calls| ==> calls[i].1.after <= calls[i + 1].1.now;
      var res := r.Do(calls[i].0, calls[i].1);
      results := results + [res];
    }
    ValidIsSpaced(r);
  }

  lemma ValidIsSpaced(r: RespRedis)
    requires r.Valid()
    ensures r.DialsSpaced()
  {
  }
}
