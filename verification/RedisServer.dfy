/** Redis as a server that changes in place. The two Lua scripts run command by command; each
    is proved to have the effect and the reply of one atomic step of the store model. */
module RedisServer {
  import opened RedisStore
  import Bucket = TokenBucket
  import Semaphore

  /** The cell a command at `now` finds under a key. */
  function Live(s: Store, key: string, now: int): Cell {
    Seen(Get(s, key), now)
  }

  /** What two successive commands leave under one key is what the second makes of the first. */
  lemma {:induction false} PutPut(s: Store, key: string, first: Cell, second: Cell)
    ensures Put(Put(s, key, first), key, second) == Put(s, key, second)
    ensures Get(Put(s, key, first), key) == first
  {
  }

  /** A numeric field as the scripts read it: `tonumber(x) or default`. */
  function NumberOr(f: Option<Field>, default: int): int {
    if f.Some? && f.value.Num? then f.value.n else default
  }

  function FieldOf(c: Cell, name: string): Option<Field> {
    if c.Present? && c.value.Hash? && name in c.value.fields then Some(c.value.fields[name]) else None
  }

  class Server {
    var store: Store

    constructor (initial: Store)
      ensures store == initial
    {
      store := initial;
    }

    /** One command ran as the store model says, on its own key only. */
    ghost predicate Ran(before: Store, key: string, cmd: Command, now: int, reply: Reply)
      reads this
    {
      var out := Exec(Get(before, key), cmd, now);
      store == Put(before, key, out.cell) && reply == out.reply
    }

    /** Access to a key first drops it if its time is up. */
    method Touch(key: string, now: int) returns (c: Cell)
      modifies this
      ensures store == Put(old(store), key, Live(old(store), key, now))
      ensures c == Live(old(store), key, now) == Get(store, key)
    {
      c := Absent;
      if key in store {
        c := store[key];
        if c.Present? && c.expiry.At? && now >= c.expiry.deadline { c := Absent; }
        if c.Absent? { store := store - {key}; }
      }
    }

    method Write(key: string, c: Cell)
      modifies this
      ensures store == Put(old(store), key, c)
    {
      store := if c.Absent? then store - {key} else store[key := c];
    }

    // ---- Hashes ----

    /** `HMGET` of two fields; an error if the key holds something else. */
    method HmGet(key: string, first: string, second: string, now: int)
      returns (ok: bool, x: Option<Field>, y: Option<Field>)
      modifies this
      ensures var c := Live(old(store), key, now);
              store == Put(old(store), key, c) && (ok <==> c.Absent? || c.value.Hash?)
              && (ok ==> x == FieldOf(c, first) && y == FieldOf(c, second))
    {
      var c := Touch(key, now);
      ok, x, y := c.Absent? || c.value.Hash?, None, None;
      if c.Present? && c.value.Hash? {
        if first in c.value.fields { x := Some(c.value.fields[first]); }
        if second in c.value.fields { y := Some(c.value.fields[second]); }
      }
    }

    method HGet(key: string, name: string, now: int) returns (reply: Reply)
      modifies this
      ensures Ran(old(store), key, GetField(name), now, reply)
    {
      var c := Touch(key, now);
      if c.Absent? { return One(None); }
      if !c.value.Hash? { return Failure; }
      reply := One(if name in c.value.fields then Some(c.value.fields[name]) else None);
    }

    method HGetAll(key: string, now: int) returns (reply: Reply)
      modifies this
      ensures Ran(old(store), key, GetAll, now, reply)
    {
      var c := Touch(key, now);
      if c.Absent? { return All(map[]); }
      reply := if c.value.Hash? then All(c.value.fields) else Failure;
    }

    /** `HSET` creates a key without an expiry, and keeps the expiry of one that exists. */
    method HSet(key: string, fields: map<string, Field>, now: int) returns (reply: Reply)
      modifies this
      ensures Ran(old(store), key, SetFields(fields), now, reply)
    {
      var c := Touch(key, now);
      if c.Absent? {
        Write(key, Present(Hash(fields), Persistent));
        PutPut(old(store), key, c, Present(Hash(fields), Persistent));
        return Count(|fields|);
      }
      if !c.value.Hash? { return Failure; }
      var merged := c.value.fields + fields;
      Write(key, Present(Hash(merged), c.expiry));
      PutPut(old(store), key, c, Present(Hash(merged), c.expiry));
      reply := Count(|fields.Keys - c.value.fields.Keys|);
    }

    method SetExpiry(key: string, ttl: int, now: int) returns (reply: Reply)
      modifies this
      ensures Ran(old(store), key, Expire(ttl), now, reply)
    {
      var c := Touch(key, now);
      if c.Absent? { return Count(0); }
      store := store[key := Present(c.value, At(now + ttl))];
      reply := Count(1);
    }

    // ---- Markers and streams ----

    method SetIfNew(key: string, ttl: int, now: int) returns (reply: Reply)
      modifies this
      ensures Ran(old(store), key, SetNx(ttl), now, reply)
    {
      var c := Touch(key, now);
      if c.Absent? {
        store := store[key := Present(Marker, At(now + ttl))];
        return Flag(true);
      }
      reply := Flag(false);
    }

    method XAdd(key: string, entry: StreamEntry, now: int) returns (reply: Reply)
      modifies this
      ensures Ran(old(store), key, Append(entry), now, reply)
    {
      var c := Touch(key, now);
      if c.Absent? {
        store := store[key := Present(Stream([entry]), Persistent)];
        return EntryId(0);
      }
      if !c.value.Stream? { return Failure; }
      store := store[key := Present(Stream(c.value.entries + [entry]), c.expiry)];
      reply := EntryId(|c.value.entries|);
    }

    method XLen(key: string, now: int) returns (reply: Reply)
      modifies this
      ensures Ran(old(store), key, Length, now, reply)
    {
      var c := Touch(key, now);
      if c.Absent? { return Count(0); }
      reply := if c.value.Stream? then Count(|c.value.entries|) else Failure;
    }

    // ---- Sorted sets ----

    /** `ZREMRANGEBYSCORE key -inf cutoff`. */
    method ZRemUpTo(key: string, cutoff: int, now: int) returns (ok: bool)
      modifies this
      ensures var c := Live(old(store), key, now);
              (ok <==> c.Absent? || c.value.ZSet?)
              && store == Put(old(store), key, if ok then Evicted(c, cutoff) else c)
    {
      var c := Touch(key, now);
      ok := c.Absent? || c.value.ZSet?;
      if c.Present? && ok {
        var kept := map id | id in c.value.members && c.value.members[id] > cutoff :: c.value.members[id];
        Write(key, if kept == map[] then Absent else Present(ZSet(kept), c.expiry));
        PutPut(old(store), key, c, ZSetCell(kept, c.expiry));
      }
    }

    method ZCard(key: string, now: int) returns (n: nat)
      modifies this
      ensures var c := Live(old(store), key, now);
              store == Put(old(store), key, c) && n == Cardinality(c)
    {
      var c := Touch(key, now);
      n := if c.Present? && c.value.ZSet? then |c.value.members| else 0;
    }

    method ZAdd(key: string, score: int, member: string, now: int)
      modifies this
      ensures var c := Live(old(store), key, now);
              store == Put(old(store), key, if c.Absent? || c.value.ZSet? then Added(c, score, member) else c)
    {
      var c := Touch(key, now);
      if c.Absent? {
        store := store[key := Present(ZSet(map[member := score]), Persistent)];
      } else if c.value.ZSet? {
        store := store[key := Present(ZSet(c.value.members[member := score]), c.expiry)];
      }
    }

    method ZRem(key: string, member: string, now: int) returns (reply: Reply)
      modifies this
      ensures Ran(old(store), key, Release(member), now, reply)
    {
      var c := Touch(key, now);
      if c.Absent? { return Count(0); }
      if !c.value.ZSet? { return Failure; }
      var kept := c.value.members - {member};
      Write(key, if kept == map[] then Absent else Present(ZSet(kept), c.expiry));
      PutPut(old(store), key, c, ZSetCell(kept, c.expiry));
      reply := Count(if member in c.value.members then 1 else 0);
    }

    // ---- The Lua scripts ----

    /** The token-bucket script: read, refill, then reject or consume, and write back with a
        new expiry either way. An error of its first command stops it with nothing changed. */
    method BucketScript(key: string, limits: Bucket.Limits, cost: nat, now: int) returns (reply: Reply)
      modifies this
      ensures Ran(old(store), key, Consume(limits, cost), now, reply)
    {
      ghost var before, found := store, Live(store, key, now);
      var ok, storedTokens, storedRefill := HmGet(key, "tokens", "last_refill", now);
      if !ok { return Failure; }
      var tokens := NumberOr(storedTokens, limits.Full());
      var lastRefill := NumberOr(storedRefill, now);
      var elapsed := Bucket.Max(0, now - lastRefill);
      tokens := Bucket.Min(limits.Full(), tokens + limits.rate * elapsed);
      var price := cost * Bucket.MICRO;
      var decision;
      if tokens < price {
        decision := Bucket.Decision(false, tokens, Bucket.Hint(limits.rate, price - tokens));
      } else {
        tokens := tokens - price;
        decision := Bucket.Decision(true, tokens, Bucket.After(0.0));
      }
      PutPut(before, key, found, Absent);
      BucketCommands(Get(before, key), limits, cost, now, tokens, decision);
      var added := HSet(key, BucketFields(tokens, now), now);
      ghost var written := Exec(found, SetFields(BucketFields(tokens, now)), now).cell;
      PutPut(before, key, found, written);
      PutPut(before, key, written, Absent);
      var refreshed := SetExpiry(key, Bucket.BUCKET_TTL, now);
      PutPut(before, key, written, Exec(written, Expire(Bucket.BUCKET_TTL), now).cell);
      reply := Tokens(decision);
    }

    /** The slot script: evict up to the cutoff, count, then refuse or insert, and refresh the
        expiry of the whole key either way. */
    method SlotScript(key: string, capacity: nat, stamp: int, cutoff: int, slotId: string, ttl: int, now: int)
      returns (reply: Reply)
      requires cutoff == stamp - ttl && ttl == Semaphore.SLOT_TTL
      modifies this
      ensures Ran(old(store), key, Acquire(capacity, stamp, slotId), now, reply)
    {
      ghost var before, found := store, Live(store, key, now);
      var ok := ZRemUpTo(key, cutoff, now);
      if !ok { return Failure; }
      SlotCommands(Get(before, key), capacity, stamp, slotId, now);
      ghost var kept := Evicted(found, cutoff);
      PutPut(before, key, kept, kept);
      var inFlight := ZCard(key, now);
      if inFlight >= capacity {
        var refreshed := SetExpiry(key, ttl, now);
        PutPut(before, key, kept, Exec(kept, Expire(ttl), now).cell);
        return Slot(Semaphore.Handle(false, inFlight));
      }
      ZAdd(key, stamp, slotId, now);
      ghost var filled := Added(kept, stamp, slotId);
      PutPut(before, key, kept, filled);
      PutPut(before, key, filled, Exec(filled, Expire(ttl), now).cell);
      var refreshed := SetExpiry(key, ttl, now);
      reply := Slot(Semaphore.Handle(true, inFlight + 1));
    }

    /** One command or script of the client. */
    method Execute(key: string, cmd: Command, now: int) returns (reply: Reply)
      modifies this
      ensures Ran(old(store), key, cmd, now, reply)
    {
      match cmd
      case Consume(limits, cost) => reply := BucketScript(key, limits, cost, now);
      case Acquire(capacity, stamp, id) =>
        reply := SlotScript(key, capacity, stamp, stamp - Semaphore.SLOT_TTL, id, Semaphore.SLOT_TTL, now);
      case Release(id) => reply := ZRem(key, id, now);
      case SetNx(ttl) => reply := SetIfNew(key, ttl, now);
      case Append(entry) => reply := XAdd(key, entry, now);
      case Length => reply := XLen(key, now);
      case GetField(name) => reply := HGet(key, name, now);
      case SetFields(fields) => reply := HSet(key, fields, now);
      case Expire(ttl) => reply := SetExpiry(key, ttl, now);
      case GetAll => reply := HGetAll(key, now);
    }

    /** Commands of other clients, in order. */
    method ExecuteAll(sent: seq<Sent>)
      modifies this
      ensures store == AfterAll(old(store), sent)
    {
      for i := 0 to |sent|
        invariant store == AfterAll(old(store), sent[..i])
      {
        AfterAllSnoc(old(store), sent[..i], sent[i]);
        assert sent[..i + 1] == sent[..i] + [sent[i]];
        var reply := Execute(sent[i].key, sent[i].op.cmd, sent[i].op.now);
      }
      assert sent[..|sent|] == sent;
    }
  }

  // ---- Why a script is one step ----

  /** HMGET, HSET and EXPIRE on one key make what the atomic step makes. */
  lemma {:induction false} BucketCommands(found: Cell, l: Bucket.Limits, cost: nat, now: int, tokens: int,
                                          decision: Bucket.Decision)
    requires var c := Seen(found, now);
             (c.Absent? || c.value.Hash?)
             && var level := Bucket.Refill(l, NumberOr(FieldOf(c, "tokens"), l.Full()),
                                           NumberOr(FieldOf(c, "last_refill"), now), now);
                decision == Bucket.Decide(l, level, cost) && tokens == decision.remaining
    ensures var written := Exec(Seen(found, now), SetFields(BucketFields(tokens, now)), now).cell;
            Exec(found, Consume(l, cost), now)
            == Outcome(Exec(written, Expire(Bucket.BUCKET_TTL), now).cell, Tokens(decision))
  {
    hide Bucket.Refill, Bucket.Decide;
    var c := Seen(found, now);
    if c.Present? {
      assert c.value.fields + BucketFields(tokens, now)
             == c.value.fields["tokens" := Num(tokens)]["last_refill" := Num(now)];
    } else {
      assert BucketFields(tokens, now) == map["tokens" := Num(tokens)]["last_refill" := Num(now)];
    }
  }

  function BucketFields(tokens: int, now: int): map<string, Field> {
    map["tokens" := Num(tokens), "last_refill" := Num(now)]
  }

  /** What ZREMRANGEBYSCORE leaves. */
  function Evicted(c: Cell, cutoff: int): Cell
    requires c.Absent? || c.value.ZSet?
  {
    if c.Absent? then c else ZSetCell(Semaphore.Evict(c.value.members, cutoff), c.expiry)
  }

  /** What ZADD leaves. */
  function Added(c: Cell, score: int, member: string): Cell
    requires c.Absent? || c.value.ZSet?
  {
    if c.Absent? then Present(ZSet(map[member := score]), Persistent)
    else Present(ZSet(c.value.members[member := score]), c.expiry)
  }

  function Cardinality(c: Cell): nat {
    if c.Present? && c.value.ZSet? then |c.value.members| else 0
  }

  /** Eviction, count, insertion and expiry on one key make what the atomic step makes. */
  lemma {:induction false} SlotCommands(found: Cell, capacity: nat, stamp: int, slotId: string, now: int)
    requires var c := Seen(found, now); c.Absent? || c.value.ZSet?
    ensures var kept := Evicted(Seen(found, now), stamp - Semaphore.SLOT_TTL);
            && Seen(kept, now) == kept && (kept.Absent? || kept.value.ZSet?)
            && var filled := if Cardinality(kept) >= capacity then kept else Added(kept, stamp, slotId);
               Seen(filled, now) == filled
               && Exec(found, Acquire(capacity, stamp, slotId), now)
                  == Outcome(Exec(filled, Expire(Semaphore.SLOT_TTL), now).cell,
                             Slot(if Cardinality(kept) >= capacity then Semaphore.Handle(false, Cardinality(kept))
                                  else Semaphore.Handle(true, Cardinality(kept) + 1)))
  {
    var c := Seen(found, now);
    var members := if c.Absent? then map[] else c.value.members;
    assert c.Absent? ==> Semaphore.Evict(members, stamp - Semaphore.SLOT_TTL) == map[];
  }
}
