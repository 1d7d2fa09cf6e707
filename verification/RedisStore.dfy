/** Redis as this platform uses it: cells under string keys, each command atomic on one key.
    Numbers stored in hashes keep their exact value (micro-tokens, microseconds, decimals). */
module RedisStore {
  import Bucket = TokenBucket
  import Semaphore

  const MICRO: int := 1_000_000

  datatype Field = Num(n: int) | Dec(r: real) | Text(s: string)

  datatype StreamEntry = StreamEntry(idempotencyKey: string, payload: map<string, Field>)

  datatype Value =
    | Hash(fields: map<string, Field>)
    | ZSet(members: map<string, int>)
    | Marker
    | Stream(entries: seq<StreamEntry>)

  datatype Expiry = Persistent | At(deadline: int)

  datatype Cell = Absent | Present(value: Value, expiry: Expiry)

  type Store = map<string, Cell>

  datatype Command =
    | Consume(limits: Bucket.Limits, cost: nat)
    | Acquire(capacity: nat, stamp: int, slotId: string)
    | Release(slotId: string)
    | SetNx(ttl: int)
    | Append(entry: StreamEntry)
    | Length
    | GetField(name: string)
    | SetFields(fields: map<string, Field>)
    | Expire(ttl: int)
    | GetAll

  datatype Reply =
    | Tokens(decision: Bucket.Decision)
    | Slot(handle: Semaphore.Handle)
    | Count(n: nat)
    | Flag(created: bool)
    | One(field: Option<Field>)
    | All(fields: map<string, Field>)
    | EntryId(position: nat)
    | Failure

  datatype Option<+T> = None | Some(value: T)

  datatype Outcome = Outcome(cell: Cell, reply: Reply)

  /** What a command at `now` finds: an expired key is gone. */
  function Seen(c: Cell, now: int): Cell {
    if c.Present? && c.expiry.At? && now >= c.expiry.deadline then Absent else c
  }

  function NumberIn(fields: map<string, Field>, name: string, default: int): int {
    if name in fields && fields[name].Num? then fields[name].n else default
  }

  /** One command on what it finds at its key. A command on a value of another type fails
      and changes nothing. */
  function Apply(c: Cell, cmd: Command, now: int): Outcome {
    match cmd
    case Consume(l, cost) =>
      if c.Absent? || c.value.Hash? then
        var fields := if c.Absent? then map[] else c.value.fields;
        var level := Bucket.Refill(l, NumberIn(fields, "tokens", l.Full()), NumberIn(fields, "last_refill", now), now);
        var d := Bucket.Decide(l, level, cost);
        Outcome(Present(Hash(fields["tokens" := Num(d.remaining)]["last_refill" := Num(now)]),
                        At(now + Bucket.BUCKET_TTL)), Tokens(d))
      else Outcome(c, Failure)
    case Acquire(capacity, stamp, id) =>
      if c.Absent? || c.value.ZSet? then
        var a := Semaphore.Admit(if c.Absent? then map[] else c.value.members, capacity, stamp, id);
        Outcome(ZSetCell(a.members, At(now + Semaphore.SLOT_TTL)), Slot(a.handle))
      else Outcome(c, Failure)
    case Release(id) =>
      if c.Absent? then Outcome(c, Count(0))
      else if c.value.ZSet? then
        Outcome(ZSetCell(c.value.members - {id}, c.expiry), Count(if id in c.value.members then 1 else 0))
      else Outcome(c, Failure)
    case SetNx(ttl) =>
      if c.Absent? then Outcome(Present(Marker, At(now + ttl)), Flag(true)) else Outcome(c, Flag(false))
    case Append(entry) =>
      if c.Absent? then Outcome(Present(Stream([entry]), Persistent), EntryId(0))
      else if c.value.Stream? then
        Outcome(Present(Stream(c.value.entries + [entry]), c.expiry), EntryId(|c.value.entries|))
      else Outcome(c, Failure)
    case Length =>
      if c.Absent? then Outcome(c, Count(0))
      else if c.value.Stream? then Outcome(c, Count(|c.value.entries|))
      else Outcome(c, Failure)
    case GetField(name) =>
      if c.Absent? then Outcome(c, One(None))
      else if c.value.Hash? then
        Outcome(c, One(if name in c.value.fields then Some(c.value.fields[name]) else None))
      else Outcome(c, Failure)
    case SetFields(fields) =>
      if c.Absent? then Outcome(Present(Hash(fields), Persistent), Count(|fields|))
      else if c.value.Hash? then
        Outcome(Present(Hash(c.value.fields + fields), c.expiry), Count(|fields.Keys - c.value.fields.Keys|))
      else Outcome(c, Failure)
    case Expire(ttl) =>
      if c.Absent? then Outcome(c, Count(0)) else Outcome(Present(c.value, At(now + ttl)), Count(1))
    case GetAll =>
      if c.Absent? then Outcome(c, All(map[]))
      else if c.value.Hash? then Outcome(c, All(c.value.fields))
      else Outcome(c, Failure)
  }

  /** A sorted set without members does not exist, and neither does its expiry. */
  function ZSetCell(members: map<string, int>, expiry: Expiry): Cell {
    if members == map[] then Absent else Present(ZSet(members), expiry)
  }

  function Get(s: Store, key: string): Cell {
    if key in s then s[key] else Absent
  }

  function Put(s: Store, key: string, c: Cell): Store {
    if c.Absent? then s - {key} else s[key := c]
  }

  /** One command against its key's cell. */
  function Exec(c: Cell, cmd: Command, now: int): Outcome {
    Apply(Seen(c, now), cmd, now)
  }

  lemma {:induction false} GetPut(s: Store, key: string, c: Cell, other: string)
    ensures Get(Put(s, key, c), other) == if other == key then c else Get(s, other)
  {
  }

  // ---- Commands in a row ----

  datatype Op = Op(now: int, cmd: Command)

  datatype Sent = Sent(key: string, op: Op)

  /** The store after a list of commands. */
  function AfterAll(s: Store, sent: seq<Sent>): Store {
    if sent == [] then s
    else
      var before, c := AfterAll(s, sent[..|sent| - 1]), sent[|sent| - 1];
      Put(before, c.key, Exec(Get(before, c.key), c.op.cmd, c.op.now).cell)
  }

  lemma {:induction false} AfterAllSnoc(s: Store, sent: seq<Sent>, c: Sent)
    ensures var before := AfterAll(s, sent);
            AfterAll(s, sent + [c]) == Put(before, c.key, Exec(Get(before, c.key), c.op.cmd, c.op.now).cell)
  {
    assert (sent + [c])[..|sent|] == sent;
  }

  // ---- The hash of the token bucket and the sorted set of the semaphore ----

  function BucketCell(b: Bucket.Bucket): Cell {
    match b
    case Missing => Absent
    case Stored(tokens, last, deadline) =>
      Present(Hash(map["tokens" := Num(tokens), "last_refill" := Num(last)]), At(deadline))
  }

  function SlotCell(s: Semaphore.Slots): Cell {
    ZSetCell(s.members, At(s.deadline))
  }

  /** The command on the hash is the bucket step of the token-bucket model. */
  lemma {:induction false} ConsumeIsBucketStep(l: Bucket.Limits, b: Bucket.Bucket, now: int, cost: nat)
    ensures var out := Exec(BucketCell(b), Consume(l, cost), now);
            var spec := Bucket.Consume(l, b, now, cost);
            out.cell == BucketCell(spec.bucket) && out.reply == Tokens(spec.decision)
  {
    var fields := match Seen(BucketCell(b), now) case Absent => map[] case Present(v, _) => v.fields;
    var d := Bucket.Consume(l, b, now, cost).decision;
    assert fields["tokens" := Num(d.remaining)]["last_refill" := Num(now)]
           == map["tokens" := Num(d.remaining), "last_refill" := Num(now)];
  }

  /** The commands on the sorted set are the steps of the semaphore model. */
  lemma {:induction false} SlotCommandsAreSteps(capacity: nat, s: Semaphore.Slots, e: Semaphore.Event)
    ensures var cmd := match e case Acquire(_, stamp, id) => Acquire(capacity, stamp, id)
                               case Release(_, id) => Release(id);
            var out := Exec(SlotCell(s), cmd, e.at);
            out.cell == SlotCell(Semaphore.Step(capacity, s, e))
            && (e.Acquire? ==>
                  out.reply == Slot(Semaphore.Admit(Semaphore.Visible(s, e.at), capacity, e.stamp, e.id).handle))
  {
  }
}
