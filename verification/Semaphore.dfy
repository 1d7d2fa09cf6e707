/** The slot semaphore of `billing/infrastructure/concurrency_semaphore.py`: a set of slot
    ids scored by host-clock stamps, with the Redis key's own expiry. Times are microseconds. */
module Semaphore {

  const SLOT_TTL: int := 60 * 1_000_000

  /** What the theorems promise, in microseconds. */
  const SIXTY_SECONDS: int := 60_000_000

  datatype Handle = Handle(admitted: bool, inFlight: nat)

  datatype Admission = Admission(members: map<string, int>, handle: Handle)

  function Evict(members: map<string, int>, cutoff: int): map<string, int> {
    map id | id in members && members[id] > cutoff :: members[id]
  }

  /** The acquire script on the members it finds: evict, count, then insert or refuse. */
  function Admit(members: map<string, int>, capacity: nat, stamp: int, id: string): Admission {
    var kept := Evict(members, stamp - SLOT_TTL);
    if |kept| >= capacity then Admission(kept, Handle(false, |kept|))
    else Admission(kept[id := stamp], Handle(true, |kept| + 1))
  }

  /** A worker that never released cannot lock its tenant out: once every stamp is a slot
      lifetime old, the next acquire is admitted as the only holder. */
  lemma {:induction false} SelfHealing(members: map<string, int>, capacity: nat, stamp: int, id: string)
    requires capacity > 0 && forall m :: m in members ==> members[m] <= stamp - SIXTY_SECONDS
    ensures Admit(members, capacity, stamp, id) == Admission(map[id := stamp], Handle(true, 1))
  {
    assert Evict(members, stamp - SIXTY_SECONDS) == map[];
  }

  /** To the microsecond: an acquire that finds as many members as there are slots, all stamped
      at `s`, is refused for the next sixty seconds and reports them all; from then on it is
      admitted as the only holder. */
  lemma {:induction false} StaleAtSixtySeconds(members: map<string, int>, capacity: nat, s: int, stamp: int, id: string)
    requires capacity > 0 && |members| == capacity && forall m :: m in members ==> members[m] == s
    ensures s <= stamp < s + 60_000_000 ==>
              Admit(members, capacity, stamp, id) == Admission(members, Handle(false, capacity))
    ensures stamp >= s + 60_000_000 ==>
              Admit(members, capacity, stamp, id) == Admission(map[id := stamp], Handle(true, 1))
  {
    if stamp < s + 60_000_000 {
      assert Evict(members, stamp - SLOT_TTL) == members;
    } else {
      SelfHealing(members, capacity, stamp, id);
    }
  }

  // ---- Runs of one key ----

  /** `at` is the Redis time of the command, `stamp` the acquirer's own clock reading. */
  datatype Event = Acquire(at: int, stamp: int, id: string) | Release(at: int, id: string)

  datatype Slots = Slots(members: map<string, int>, deadline: int)

  function Visible(s: Slots, now: int): map<string, int> {
    if now >= s.deadline then map[] else s.members
  }

  function Step(capacity: nat, s: Slots, e: Event): Slots {
    match e
    case Acquire(at, stamp, id) => Slots(Admit(Visible(s, at), capacity, stamp, id).members, at + SLOT_TTL)
    case Release(at, id) => Slots(Visible(s, at) - {id}, s.deadline)
  }

  /** The key after the first `n` events. */
  function SlotsAfter(capacity: nat, evs: seq<Event>, n: nat): Slots
    requires n <= |evs|
  {
    if n == 0 then Slots(map[], 0) else Step(capacity, SlotsAfter(capacity, evs, n - 1), evs[n - 1])
  }

  function Found(capacity: nat, evs: seq<Event>, n: nat, now: int): map<string, int>
    requires n <= |evs|
  {
    Visible(SlotsAfter(capacity, evs, n), now)
  }

  /** What the acquire at `n` is told. */
  function Told(capacity: nat, evs: seq<Event>, n: nat): Handle
    requires n < |evs| && evs[n].Acquire?
  {
    Admit(Found(capacity, evs, n, evs[n].at), capacity, evs[n].stamp, evs[n].id).handle
  }

  predicate Admitted(capacity: nat, evs: seq<Event>, i: nat)
    requires i < |evs|
  {
    evs[i].Acquire? && Told(capacity, evs, i).admitted
  }

  /** The `in_flight` an acquire reports. */
  function Reported(capacity: nat, evs: seq<Event>, i: nat): nat
    requires i < |evs| && evs[i].Acquire?
  {
    Told(capacity, evs, i).inFlight
  }

  // ---- The set as the log tells it ----

  /** When the key expires, according to the attempts among the first `n` events. */
  function Deadline(evs: seq<Event>, n: nat): int
    requires n <= |evs|
  {
    if n == 0 then 0 else if evs[n - 1].Acquire? then evs[n - 1].at + SIXTY_SECONDS else Deadline(evs, n - 1)
  }

  predicate Unreleased(evs: seq<Event>, i: nat, n: nat)
    requires i < n <= |evs|
  {
    forall j :: i < j < n && evs[j].Release? ==> evs[j].id != evs[i].id
  }

  /** Younger than the cutoff of every acquire since. */
  predicate OutlivesCutoffs(evs: seq<Event>, i: nat, n: nat)
    requires i < n <= |evs| && evs[i].Acquire?
  {
    forall j :: i < j < n && evs[j].Acquire? ==> evs[i].stamp > evs[j].stamp - SIXTY_SECONDS
  }

  /** Every command since, and the moment `now`, found the key unexpired. */
  predicate KeyStayed(evs: seq<Event>, i: nat, n: nat, now: int)
    requires i < n <= |evs|
  {
    now < Deadline(evs, n) && forall k {:trigger evs[k]} :: i < k < n ==> evs[k].at < Deadline(evs, k)
  }

  predicate Survives(capacity: nat, evs: seq<Event>, i: nat, n: nat, now: int)
    requires i < n <= |evs|
  {
    Admitted(capacity, evs, i) && Unreleased(evs, i, n) && OutlivesCutoffs(evs, i, n) && KeyStayed(evs, i, n, now)
  }

  predicate FreshIds(evs: seq<Event>) {
    forall i, j :: 0 <= i < j < |evs| && evs[i].Acquire? && evs[j].Acquire? ==> evs[i].id != evs[j].id
  }

  /** Which entries survive one more event. */
  lemma {:induction false} SurvivesNext(capacity: nat, evs: seq<Event>, i: nat, n: nat, now: int)
    requires i < n < |evs| && evs[i].Acquire?
    ensures var e := evs[n];
            Survives(capacity, evs, i, n + 1, now) <==>
            now < Deadline(evs, n + 1)
            && Survives(capacity, evs, i, n, e.at) && (e.Release? ==> e.id != evs[i].id)
            && (e.Acquire? ==> evs[i].stamp > e.stamp - SIXTY_SECONDS)
  {
    hide Admitted, Deadline;
    var e := evs[n];
    assert Unreleased(evs, i, n + 1) <==> Unreleased(evs, i, n) && (e.Release? ==> e.id != evs[i].id);
    assert OutlivesCutoffs(evs, i, n + 1)
           <==> OutlivesCutoffs(evs, i, n) && (e.Acquire? ==> evs[i].stamp > e.stamp - SIXTY_SECONDS);
    assert KeyStayed(evs, i, n + 1, now) <==> KeyStayed(evs, i, n, e.at) && now < Deadline(evs, n + 1);
  }

  lemma {:induction false} DeadlineTracked(capacity: nat, evs: seq<Event>, n: nat)
    requires n <= |evs|
    ensures SlotsAfter(capacity, evs, n).deadline == Deadline(evs, n)
  {
    if n > 0 { DeadlineTracked(capacity, evs, n - 1); }
  }

  ghost predicate Agrees(capacity: nat, evs: seq<Event>, n: nat, now: int, members: map<string, int>)
    requires n <= |evs|
  {
    (forall i :: 0 <= i < n && Survives(capacity, evs, i, n, now) ==>
       evs[i].Acquire? && evs[i].id in members && members[evs[i].id] == evs[i].stamp)
    && forall id :: id in members ==> exists i :: 0 <= i < n && Survives(capacity, evs, i, n, now) && evs[i].id == id
  }

  /** Agreement with history, on arbitrary clocks: a slot is in the set at `now` if and only
      if the log has an admitted, unreleased acquire for it that outlives every later cutoff
      and whose key never expired; its score is that acquire's stamp. */
  lemma {:induction false} HistoryAgrees(capacity: nat, evs: seq<Event>, n: nat, now: int)
    requires FreshIds(evs) && n <= |evs|
    ensures Agrees(capacity, evs, n, now, Found(capacity, evs, n, now))
  {
    hide *;
    if n == 0 {
      AgreesAtStart(capacity, evs, now);
    } else {
      HistoryAgrees(capacity, evs, n - 1, evs[n - 1].at);
      AgreesNext(capacity, evs, n - 1, now);
    }
  }

  lemma {:induction false} AgreesAtStart(capacity: nat, evs: seq<Event>, now: int)
    ensures Agrees(capacity, evs, 0, now, Found(capacity, evs, 0, now))
  {
    hide Survives;
    assert Found(capacity, evs, 0, now) == map[];
  }

  lemma {:induction false} FoundNext(capacity: nat, evs: seq<Event>, n: nat, now: int)
    requires n < |evs|
    ensures var e := evs[n];
            var found := Found(capacity, evs, n, e.at);
            Found(capacity, evs, n + 1, now) ==
            if now >= Deadline(evs, n + 1) then map[]
            else if e.Release? then found - {e.id}
            else if Admitted(capacity, evs, n) then Evict(found, e.stamp - SIXTY_SECONDS)[e.id := e.stamp]
            else Evict(found, e.stamp - SIXTY_SECONDS)
    ensures Admitted(capacity, evs, n) ==> evs[n].Acquire?
    ensures Survives(capacity, evs, n, n + 1, now) <==> Admitted(capacity, evs, n) && now < Deadline(evs, n + 1)
  {
    DeadlineTracked(capacity, evs, n + 1);
  }

  lemma {:induction false} AgreesNext(capacity: nat, evs: seq<Event>, n: nat, now: int)
    requires FreshIds(evs) && n < |evs|
    requires Agrees(capacity, evs, n, evs[n].at, Found(capacity, evs, n, evs[n].at))
    ensures Agrees(capacity, evs, n + 1, now, Found(capacity, evs, n + 1, now))
  {
    hide Found, Admitted, Deadline, Survives;
    var e := evs[n];
    var found, members := Found(capacity, evs, n, e.at), Found(capacity, evs, n + 1, now);
    FoundNext(capacity, evs, n, now);
    forall i | 0 <= i <= n && Survives(capacity, evs, i, n + 1, now)
      ensures evs[i].Acquire? && evs[i].id in members && members[evs[i].id] == evs[i].stamp
    {
      SurvivorsAcquire(capacity, evs, i, n + 1, now);
      if i < n { SurvivesNext(capacity, evs, i, n, now); }
    }
    forall id | id in members
      ensures exists i :: 0 <= i <= n && Survives(capacity, evs, i, n + 1, now) && evs[i].id == id
    {
      if Admitted(capacity, evs, n) && e.id == id {
        assert evs[n].id == id;
      } else {
        var i :| 0 <= i < n && Survives(capacity, evs, i, n, e.at) && evs[i].id == id;
        SurvivorsAcquire(capacity, evs, i, n, e.at);
        SurvivesNext(capacity, evs, i, n, now);
        assert Survives(capacity, evs, i, n + 1, now) && evs[i].id == id;
      }
    }
  }

  lemma {:induction false} SurvivorsAcquire(capacity: nat, evs: seq<Event>, i: nat, n: nat, now: int)
    requires i < n <= |evs| && Survives(capacity, evs, i, n, now)
    ensures evs[i].Acquire?
  {
  }

  /** The log positions the acquire at `n` finds still counted, after its own cutoff. */
  function Counted(capacity: nat, evs: seq<Event>, n: nat): set<nat>
    requires n < |evs| && evs[n].Acquire?
  {
    set i | 0 <= i < n && Survives(capacity, evs, i, n, evs[n].at) && evs[i].stamp > evs[n].stamp - SIXTY_SECONDS
  }

  ghost predicate NamesIn(s: set<nat>, t: set<string>, evs: seq<Event>) {
    forall i :: i in s ==> i < |evs| && evs[i].Acquire? && evs[i].id in t
  }

  ghost predicate NamedBy(s: set<nat>, t: set<string>, evs: seq<Event>) {
    forall id :: id in t ==> exists i :: i in s && i < |evs| && evs[i].id == id
  }

  lemma {:induction false} InjectiveCard(s: set<nat>, t: set<string>, evs: seq<Event>)
    requires FreshIds(evs) && NamesIn(s, t, evs) && NamedBy(s, t, evs)
    ensures |s| == |t|
  {
    if s == {} {
      assert t == {};
    } else {
      var i :| i in s;
      assert NamesIn(s - {i}, t - {evs[i].id}, evs);
      forall id | id in t - {evs[i].id} ensures exists j :: j in s - {i} && j < |evs| && evs[j].id == id {
        var j :| j in s && j < |evs| && evs[j].id == id;
        assert j in s - {i} && evs[j].id == id;
      }
      InjectiveCard(s - {i}, t - {evs[i].id}, evs);
    }
  }

  lemma {:induction false} AdmittedByCount(capacity: nat, evs: seq<Event>, n: nat)
    requires n < |evs| && evs[n].Acquire?
    ensures var kept := |Evict(Found(capacity, evs, n, evs[n].at), evs[n].stamp - SIXTY_SECONDS)|;
            (Admitted(capacity, evs, n) <==> kept < capacity)
            && Reported(capacity, evs, n) == kept + if Admitted(capacity, evs, n) then 1 else 0
  {
    hide Found, Evict;
  }

  lemma {:induction false} CountedAreKept(capacity: nat, evs: seq<Event>, n: nat, found: map<string, int>)
    requires n < |evs| && evs[n].Acquire? && Agrees(capacity, evs, n, evs[n].at, found)
    ensures NamesIn(Counted(capacity, evs, n), Evict(found, evs[n].stamp - SIXTY_SECONDS).Keys, evs)
  {
    hide Survives;
  }

  lemma {:induction false} KeptAreCounted(capacity: nat, evs: seq<Event>, n: nat, found: map<string, int>)
    requires n < |evs| && evs[n].Acquire? && Agrees(capacity, evs, n, evs[n].at, found)
    ensures NamedBy(Counted(capacity, evs, n), Evict(found, evs[n].stamp - SIXTY_SECONDS).Keys, evs)
  {
    hide Survives;
    var counted, kept := Counted(capacity, evs, n), Evict(found, evs[n].stamp - SIXTY_SECONDS).Keys;
    forall id | id in kept ensures exists i :: i in counted && i < |evs| && evs[i].id == id {
      var i :| 0 <= i < n && Survives(capacity, evs, i, n, evs[n].at) && evs[i].id == id;
      assert i in counted && evs[i].id == id;
    }
  }

  /** Admission is decided by the log: below capacity counted holders, and only then; the
      number reported is that count, with the newcomer if it was admitted. */
  lemma {:induction false} AdmissionFromLog(capacity: nat, evs: seq<Event>, n: nat)
    requires FreshIds(evs) && n < |evs| && evs[n].Acquire?
    ensures Admitted(capacity, evs, n) <==> |Counted(capacity, evs, n)| < capacity
    ensures Reported(capacity, evs, n) == |Counted(capacity, evs, n)| + if Admitted(capacity, evs, n) then 1 else 0
  {
    hide *;
    HistoryAgrees(capacity, evs, n, evs[n].at);
    var found := Found(capacity, evs, n, evs[n].at);
    CountedAreKept(capacity, evs, n, found);
    KeptAreCounted(capacity, evs, n, found);
    var kept := Evict(found, evs[n].stamp - SIXTY_SECONDS);
    InjectiveCard(Counted(capacity, evs, n), kept.Keys, evs);
    assert |kept| == |kept.Keys|;
    AdmittedByCount(capacity, evs, n);
  }

  // ---- One clock: key expiry decides nothing, and slow holders are bounded ----

  /** Acquirers read the Redis clock at most `delay` before their script runs, and may overtake
      one another in between. */
  predicate Sampled(evs: seq<Event>, delay: nat) {
    (forall i, j :: 0 <= i < j < |evs| ==> evs[i].at <= evs[j].at)
    && forall i :: 0 <= i < |evs| && evs[i].Acquire? ==> evs[i].at - delay <= evs[i].stamp <= evs[i].at
  }

  /** One clock, read as the script runs. */
  predicate OneClock(evs: seq<Event>) {
    Sampled(evs, 0)
  }

  lemma {:induction false} DeadlineFollows(evs: seq<Event>, delay: nat, i: nat, n: nat)
    requires Sampled(evs, delay) && i < n <= |evs| && evs[i].Acquire?
    ensures Deadline(evs, n) >= evs[i].at + SIXTY_SECONDS
  {
    if i < n - 1 && !evs[n - 1].Acquire? { DeadlineFollows(evs, delay, i, n - 1); }
  }

  // ---- A semaphore whose key never expires ----

  function StepForever(capacity: nat, members: map<string, int>, e: Event): map<string, int> {
    match e
    case Acquire(_, stamp, id) => Admit(members, capacity, stamp, id).members
    case Release(_, id) => members - {id}
  }

  function ForeverAfter(capacity: nat, evs: seq<Event>, n: nat): map<string, int>
    requires n <= |evs|
  {
    if n == 0 then map[] else StepForever(capacity, ForeverAfter(capacity, evs, n - 1), evs[n - 1])
  }

  /** What the acquire at `n` is told when the key never expires. */
  function ToldForever(capacity: nat, evs: seq<Event>, n: nat): Handle
    requires n < |evs| && evs[n].Acquire?
  {
    Admit(ForeverAfter(capacity, evs, n), capacity, evs[n].stamp, evs[n].id).handle
  }

  /** At `now` the two differ only in members that an acquire would evict. */
  predicate AlikeAt(s: Slots, forever: map<string, int>, now: int) {
    Evict(Visible(s, now), now - SIXTY_SECONDS) == Evict(forever, now - SIXTY_SECONDS)
  }

  ghost predicate AlikeFrom(s: Slots, forever: map<string, int>, latest: int) {
    (forall id :: id in s.members ==> s.members[id] <= latest)
    && forall now :: now >= latest ==> AlikeAt(s, forever, now)
  }

  lemma {:induction false} AcquireAlike(capacity: nat, s: Slots, forever: map<string, int>, latest: int, e: Event)
    requires AlikeFrom(s, forever, latest) && latest <= e.at && e.Acquire? && e.stamp == e.at
    ensures AlikeFrom(Step(capacity, s, e), StepForever(capacity, forever, e), e.at)
    ensures Admit(Visible(s, e.at), capacity, e.stamp, e.id) == Admit(forever, capacity, e.stamp, e.id)
  {
    assert AlikeAt(s, forever, e.at);
    AdmitDependsOnFresh(Visible(s, e.at), forever, capacity, e.stamp, e.id);
    AdmitStamps(Visible(s, e.at), capacity, e.stamp, e.id);
    hide Admit, AlikeFrom;
    AlikeOnceFresh(Admit(forever, capacity, e.stamp, e.id).members, e.at);
  }

  lemma {:induction false} AlikeOnceFresh(members: map<string, int>, at: int)
    requires forall id :: id in members ==> members[id] <= at
    ensures AlikeFrom(Slots(members, at + SIXTY_SECONDS), members, at)
  {
    var slots := Slots(members, at + SIXTY_SECONDS);
    forall now | now >= at ensures AlikeAt(slots, members, now) {
      if now >= at + SIXTY_SECONDS { assert Evict(members, now - SIXTY_SECONDS) == map[]; }
    }
  }

  lemma {:induction false} AdmitDependsOnFresh(a: map<string, int>, b: map<string, int>, capacity: nat,
                                               stamp: int, id: string)
    requires Evict(a, stamp - SIXTY_SECONDS) == Evict(b, stamp - SIXTY_SECONDS)
    ensures Admit(a, capacity, stamp, id) == Admit(b, capacity, stamp, id)
  {
    hide Evict;
  }

  lemma {:induction false} AdmitStamps(found: map<string, int>, capacity: nat, stamp: int, id: string)
    requires forall m :: m in found ==> found[m] <= stamp
    ensures var members := Admit(found, capacity, stamp, id).members; forall m :: m in members ==> members[m] <= stamp
  {
  }

  lemma {:induction false} ReleaseAlike(capacity: nat, s: Slots, forever: map<string, int>, latest: int, e: Event)
    requires AlikeFrom(s, forever, latest) && latest <= e.at && e.Release?
    ensures AlikeFrom(Step(capacity, s, e), StepForever(capacity, forever, e), e.at)
  {
    var after := Step(capacity, s, e);
    forall now | now >= e.at ensures AlikeAt(after, forever - {e.id}, now) {
      assert Visible(after, now) == Visible(s, now) - {e.id};
      assert AlikeAt(s, forever, now);
      EvictWithout(forever, e.id, now - SIXTY_SECONDS);
      EvictWithout(Visible(s, now), e.id, now - SIXTY_SECONDS);
    }
  }

  lemma {:induction false} EvictWithout(members: map<string, int>, id: string, cutoff: int)
    ensures Evict(members - {id}, cutoff) == Evict(members, cutoff) - {id}
  {
  }

  /** The time of the latest of the first `n` events, or of the first to come. */
  function LatestOf(evs: seq<Event>, n: nat): int
    requires n <= |evs|
  {
    if n > 0 then evs[n - 1].at else if evs != [] then evs[0].at else 0
  }

  lemma {:induction false} AlikeOnOneClock(capacity: nat, evs: seq<Event>, n: nat)
    requires OneClock(evs) && n <= |evs|
    ensures AlikeFrom(SlotsAfter(capacity, evs, n), ForeverAfter(capacity, evs, n), LatestOf(evs, n))
  {
    hide Evict, Step, StepForever, AlikeFrom;
    if n == 0 {
      AlikeAtStart(LatestOf(evs, 0));
    } else {
      AlikeOnOneClock(capacity, evs, n - 1);
      var s, forever := SlotsAfter(capacity, evs, n - 1), ForeverAfter(capacity, evs, n - 1);
      if evs[n - 1].Acquire? {
        AcquireAlike(capacity, s, forever, LatestOf(evs, n - 1), evs[n - 1]);
      } else {
        ReleaseAlike(capacity, s, forever, LatestOf(evs, n - 1), evs[n - 1]);
      }
    }
  }

  lemma {:induction false} AlikeAtStart(latest: int)
    ensures AlikeFrom(Slots(map[], 0), map[], latest)
  {
  }

  /** On one clock the expiry of the whole key changes no decision and no reported count: every
      acquire is told what a semaphore whose key never expires tells it. */
  lemma {:induction false} KeyExpiryIsTransparent(capacity: nat, evs: seq<Event>, n: nat)
    requires OneClock(evs) && n < |evs| && evs[n].Acquire?
    ensures Told(capacity, evs, n) == ToldForever(capacity, evs, n)
  {
    AlikeOnOneClock(capacity, evs, n);
    hide SlotsAfter, ForeverAfter, Admit, AlikeFrom;
    AcquireAlike(capacity, SlotsAfter(capacity, evs, n), ForeverAfter(capacity, evs, n), LatestOf(evs, n), evs[n]);
  }

  /** The acquires among the first `n` events that were admitted and not released since,
      evicted or not, with stamps in a half-open interval. */
  function HeldBetween(capacity: nat, evs: seq<Event>, n: nat, after: int, upTo: int): set<nat>
    requires n <= |evs|
  {
    set i | 0 <= i < n && Admitted(capacity, evs, i) && Unreleased(evs, i, n) && after < evs[i].stamp <= upTo
  }

  lemma {:induction false} SubsetCard<T>(a: set<T>, b: set<T>)
    requires a <= b
    ensures |a| <= |b|
  {
    if a != {} {
      var x :| x in a;
      SubsetCard(a - {x}, b - {x});
    }
  }

  /** Any window of stamps one slot lifetime long, less the sampling delay, holds at most
      `capacity` unreleased holders. */
  lemma {:induction false} WindowOfHolders(capacity: nat, evs: seq<Event>, delay: nat, n: nat, after: int)
    requires FreshIds(evs) && Sampled(evs, delay) && n <= |evs|
    ensures |HeldBetween(capacity, evs, n, after, after + SIXTY_SECONDS - delay)| <= capacity
  {
    hide *;
    var upTo := after + SIXTY_SECONDS - delay;
    if n == 0 {
      NoHoldersAtStart(capacity, evs, after, upTo);
      return;
    }
    var held := HeldBetween(capacity, evs, n, after, upTo);
    NewestOfHolders(capacity, evs, n - 1, after, upTo);
    if n - 1 in held {
      OthersAreCounted(capacity, evs, delay, n - 1, after);
      AdmissionFromLog(capacity, evs, n - 1);
      SubsetCard(held - {n - 1}, Counted(capacity, evs, n - 1));
    } else {
      WindowOfHolders(capacity, evs, delay, n - 1, after);
      SubsetCard(held, HeldBetween(capacity, evs, n - 1, after, upTo));
    }
  }

  lemma {:induction false} NoHoldersAtStart(capacity: nat, evs: seq<Event>, after: int, upTo: int)
    ensures HeldBetween(capacity, evs, 0, after, upTo) == {}
  {
  }

  lemma {:induction false} NewestOfHolders(capacity: nat, evs: seq<Event>, n: nat, after: int, upTo: int)
    requires n < |evs|
    ensures var held := HeldBetween(capacity, evs, n + 1, after, upTo);
            if n in held then evs[n].Acquire? && evs[n].stamp <= upTo && Admitted(capacity, evs, n)
            else held <= HeldBetween(capacity, evs, n, after, upTo)
  {
    hide Admitted;
    if Admitted(capacity, evs, n) { AdmittedAcquires(capacity, evs, n); }
  }

  /** The newest acquire of the window counted every other holder in it. */
  lemma {:induction false} OthersAreCounted(capacity: nat, evs: seq<Event>, delay: nat, n: nat, after: int)
    requires Sampled(evs, delay) && n < |evs| && evs[n].Acquire? && evs[n].stamp <= after + SIXTY_SECONDS - delay
    ensures HeldBetween(capacity, evs, n + 1, after, after + SIXTY_SECONDS - delay) - {n} <= Counted(capacity, evs, n)
  {
    hide Admitted, Deadline;
    var others := HeldBetween(capacity, evs, n + 1, after, after + SIXTY_SECONDS - delay) - {n};
    forall i | i in others ensures i in Counted(capacity, evs, n) {
      AdmittedAcquires(capacity, evs, i);
      DeadlineFollows(evs, delay, i, n);
      forall k {:trigger evs[k]} | i < k < n ensures evs[k].at < Deadline(evs, k) {
        DeadlineFollows(evs, delay, i, k);
      }
    }
  }

  lemma {:induction false} AdmittedAcquires(capacity: nat, evs: seq<Event>, i: nat)
    requires i < |evs| && Admitted(capacity, evs, i)
    ensures evs[i].Acquire?
  {
  }

  lemma {:induction false} YoungerSplit(capacity: nat, evs: seq<Event>, start: int, middle: int, end: int)
    ensures HeldBetween(capacity, evs, |evs|, start, end)
            <= HeldBetween(capacity, evs, |evs|, start, middle) + HeldBetween(capacity, evs, |evs|, middle, end)
    ensures start == end ==> HeldBetween(capacity, evs, |evs|, start, end) == {}
  {
    hide Admitted, Unreleased;
  }

  /** Slow-holder bound: however long holders run and whatever is evicted or expires, at any
      moment at most `k * capacity` unreleased holders are younger than `k` slot lifetimes,
      each shortened by the longest delay between reading the clock and running the script. */
  lemma {:induction false} SlowHolderBound(capacity: nat, evs: seq<Event>, delay: nat, now: int, k: nat)
    requires FreshIds(evs) && Sampled(evs, delay)
    ensures |HeldBetween(capacity, evs, |evs|, now - k * (SIXTY_SECONDS - delay), now)| <= k * capacity
  {
    hide *;
    var span := SIXTY_SECONDS - delay;
    var start := now - k * span;
    var middle := start + span;
    YoungerSplit(capacity, evs, start, middle, now);
    if k > 0 {
      var rest := HeldBetween(capacity, evs, |evs|, middle, now);
      assert middle == now - (k - 1) * span;
      SlowHolderBound(capacity, evs, delay, now, k - 1);
      WindowOfHolders(capacity, evs, delay, |evs|, start);
      SubsetCard(HeldBetween(capacity, evs, |evs|, start, now),
                 HeldBetween(capacity, evs, |evs|, start, middle) + rest);
      assert k * capacity == (k - 1) * capacity + capacity;
    }
  }

  /** An acquire that finds only stale slots is admitted as the only one. */
  lemma {:induction false} AdmittedAlone(capacity: nat, evs: seq<Event>, n: nat)
    requires n < |evs| && evs[n].Acquire? && capacity > 0
    requires n > 0 ==> var s := SlotsAfter(capacity, evs, n);
                       evs[n].at >= s.deadline
                       || forall id :: id in s.members ==> s.members[id] <= evs[n].stamp - SIXTY_SECONDS
    ensures Admitted(capacity, evs, n)
    ensures SlotsAfter(capacity, evs, n + 1) == Slots(map[evs[n].id := evs[n].stamp], evs[n].at + SIXTY_SECONDS)
  {
    SelfHealing(Found(capacity, evs, n, evs[n].at), capacity, evs[n].stamp, evs[n].id);
  }

  /** The factor is needed: a holder that runs a full slot lifetime is evicted while it runs,
      and a semaphore of capacity one then has two holders. */
  lemma {:induction false} SlowHoldersExceedCapacity()
    ensures var evs := [Acquire(0, 0, "a"), Acquire(SIXTY_SECONDS, SIXTY_SECONDS, "b")];
            OneClock(evs) && |HeldBetween(1, evs, 2, -1, SIXTY_SECONDS)| == 2
  {
    hide Admitted, SlotsAfter;
    var evs := [Acquire(0, 0, "a"), Acquire(SIXTY_SECONDS, SIXTY_SECONDS, "b")];
    AdmittedAlone(1, evs, 0);
    AdmittedAlone(1, evs, 1);
    assert HeldBetween(1, evs, 2, -1, SIXTY_SECONDS) == {0, 1};
  }

  /** The holders younger than `k` spans number at most `k * capacity`. */
  predicate SpanBound(capacity: nat, evs: seq<Event>, span: nat, now: int, k: nat) {
    |HeldBetween(capacity, evs, |evs|, now - k * span, now)| <= k * capacity
  }

  /** `now` is not earlier than anything that happened. */
  predicate Past(evs: seq<Event>, now: int) {
    forall i :: 0 <= i < |evs| ==> evs[i].at <= now
  }

  lemma {:induction false} HeldGrows(capacity: nat, evs: seq<Event>, start: int, earlier: int, end: int)
    requires earlier <= start
    ensures |HeldBetween(capacity, evs, |evs|, start, end)| <= |HeldBetween(capacity, evs, |evs|, earlier, end)|
  {
    hide Admitted, Unreleased;
    SubsetCard(HeldBetween(capacity, evs, |evs|, start, end), HeldBetween(capacity, evs, |evs|, earlier, end));
  }

  /** Whatever the delay, at any moment at most `capacity` unreleased holders are younger than
      one slot lifetime. */
  lemma {:induction false} YoungHolderBound(capacity: nat, evs: seq<Event>, delay: nat, n: nat, now: int)
    requires FreshIds(evs) && Sampled(evs, delay) && Past(evs, now) && n <= |evs|
    ensures |HeldBetween(capacity, evs, n, now - 60_000_000, now)| <= capacity
  {
    hide *;
    if n == 0 {
      NoHoldersAtStart(capacity, evs, now - 60_000_000, now);
      return;
    }
    var held := HeldBetween(capacity, evs, n, now - 60_000_000, now);
    NewestOfHolders(capacity, evs, n - 1, now - 60_000_000, now);
    if n - 1 in held {
      YoungAreCounted(capacity, evs, delay, n - 1, now);
      AdmissionFromLog(capacity, evs, n - 1);
      SubsetCard(held - {n - 1}, Counted(capacity, evs, n - 1));
    } else {
      YoungHolderBound(capacity, evs, delay, n - 1, now);
      SubsetCard(held, HeldBetween(capacity, evs, n - 1, now - 60_000_000, now));
    }
  }

  lemma {:induction false} YoungAreCounted(capacity: nat, evs: seq<Event>, delay: nat, n: nat, now: int)
    requires Sampled(evs, delay) && Past(evs, now) && n < |evs| && evs[n].Acquire?
    ensures HeldBetween(capacity, evs, n + 1, now - 60_000_000, now) - {n} <= Counted(capacity, evs, n)
  {
    hide Admitted, Deadline;
    forall i | i in HeldBetween(capacity, evs, n + 1, now - 60_000_000, now) - {n}
      ensures i in Counted(capacity, evs, n)
    {
      AdmittedAcquires(capacity, evs, i);
      DeadlineFollows(evs, delay, i, n);
      forall k {:trigger evs[k]} | i < k < n ensures evs[k].at < Deadline(evs, k) {
        DeadlineFollows(evs, delay, i, k);
      }
    }
  }

  // ---- What a sampling delay costs, exactly ----

  /** Distinct identifiers. */
  function Name(i: nat): string {
    seq(i, _ => 'a')
  }

  /** The semaphore filled three times over: at once; a slot lifetime later by acquirers that
      read their clocks `delay` before, just when the key has expired; and by one more as soon
      as their stamps are stale. Nobody releases. */
  function Refills(capacity: nat, delay: nat): seq<Event> {
    seq(2 * capacity + 1, (i: nat) =>
      if i < capacity then Acquire(0, 0, Name(i))
      else if i < 2 * capacity then Acquire(SIXTY_SECONDS, SIXTY_SECONDS - delay, Name(i))
      else Acquire(2 * SIXTY_SECONDS - delay, 2 * SIXTY_SECONDS - delay, Name(i)))
  }

  lemma {:induction false} NamesDiffer(i: nat, j: nat)
    requires i != j
    ensures Name(i) != Name(j)
  {
    assert |Name(i)| == i && |Name(j)| == j;
  }

  lemma {:induction false} RefillsAreSampled(capacity: nat, delay: nat, most: nat)
    requires delay <= SIXTY_SECONDS && delay <= most
    ensures FreshIds(Refills(capacity, delay)) && Sampled(Refills(capacity, delay), most)
    ensures Past(Refills(capacity, delay), 2 * SIXTY_SECONDS - delay)
  {
    hide Name;
    var evs := Refills(capacity, delay);
    forall i, j | 0 <= i < j < |evs| && evs[i].Acquire? && evs[j].Acquire? ensures evs[i].id != evs[j].id {
      NamesDiffer(i, j);
    }
  }

  function Range(lo: nat, hi: nat): (range: set<nat>)
    requires lo <= hi
    ensures forall i :: i in range <==> lo <= i < hi
    ensures |range| == hi - lo
  {
    if lo == hi then {} else Range(lo, hi - 1) + {hi - 1}
  }

  lemma {:induction false} DeadlineOfRefills(capacity: nat, delay: nat, n: nat)
    requires 0 < n <= 2 * capacity + 1
    ensures Deadline(Refills(capacity, delay), n) == Refills(capacity, delay)[n - 1].at + SIXTY_SECONDS
  {
    hide Name;
  }

  /** No acquire counts a holder of an earlier filling. */
  lemma {:induction false} CountedInRefill(capacity: nat, delay: nat, n: nat, i: nat)
    requires 0 < capacity && delay <= SIXTY_SECONDS && n <= 2 * capacity
    requires Refills(capacity, delay)[n].Acquire? && i in Counted(capacity, Refills(capacity, delay), n)
    ensures i < n && n < 2 * capacity && (capacity <= n ==> capacity <= i)
  {
    hide Name, Admitted, Unreleased, Deadline;
    var evs := Refills(capacity, delay);
    assert evs[capacity].at == SIXTY_SECONDS;
    if capacity <= n { DeadlineOfRefills(capacity, delay, capacity); }
  }

  lemma {:induction false} RefillsAdmit(capacity: nat, delay: nat, n: nat)
    requires 0 < capacity && delay <= SIXTY_SECONDS && n <= 2 * capacity
    ensures Admitted(capacity, Refills(capacity, delay), n)
  {
    hide Name, Admitted, Counted;
    var evs := Refills(capacity, delay);
    RefillsAreSampled(capacity, delay, delay);
    AdmissionFromLog(capacity, evs, n);
    var first := if n == 2 * capacity then n else if capacity <= n then capacity else 0;
    forall i | i in Counted(capacity, evs, n) ensures i in Range(first, n) {
      CountedInRefill(capacity, delay, n, i);
    }
    SubsetCard(Counted(capacity, evs, n), Range(first, n));
  }

  lemma {:induction false} RefillsHold(capacity: nat, delay: nat, after: int, upTo: int, lo: nat, hi: nat)
    requires 0 < capacity && delay <= SIXTY_SECONDS && lo <= hi <= 2 * capacity + 1
    requires forall i :: lo <= i < hi ==> after < Refills(capacity, delay)[i].stamp <= upTo
    ensures |HeldBetween(capacity, Refills(capacity, delay), 2 * capacity + 1, after, upTo)| >= hi - lo
  {
    hide Name, Admitted;
    var evs := Refills(capacity, delay);
    var held := HeldBetween(capacity, evs, 2 * capacity + 1, after, upTo);
    forall i: nat | lo <= i < hi ensures i in held { RefillsAdmit(capacity, delay, i); }
    SubsetCard(Range(lo, hi), held);
  }

  /** The shortened span is exact: for every capacity and delay, the bound holds of all runs
      with spans of one length if and only if that length is at most a slot lifetime less the
      delay. */
  lemma {:induction false} SpanIff(capacity: nat, delay: nat, span: nat)
    requires capacity > 0
    ensures (forall evs: seq<Event>, now, k: nat | FreshIds(evs) && Sampled(evs, delay) ::
               SpanBound(capacity, evs, span, now, k))
            <==> span == 0 || span + delay <= 60_000_000
  {
    hide FreshIds, Sampled, HeldBetween, Refills;
    if span == 0 || span + delay <= SIXTY_SECONDS {
      forall evs: seq<Event>, now, k: nat | FreshIds(evs) && Sampled(evs, delay)
        ensures SpanBound(capacity, evs, span, now, k)
      {
        ShorterSpan(capacity, evs, delay, span, now, k);
      }
    } else {
      SpanTooLong(capacity, delay, span);
    }
  }

  lemma {:induction false} ShorterSpan(capacity: nat, evs: seq<Event>, delay: nat, span: nat, now: int, k: nat)
    requires FreshIds(evs) && Sampled(evs, delay) && (span == 0 || span + delay <= SIXTY_SECONDS)
    ensures SpanBound(capacity, evs, span, now, k)
  {
    hide FreshIds, Sampled, HeldBetween;
    if span == 0 {
      YoungerSplit(capacity, evs, now - k * span, now, now);
      assert k * span == 0;
    } else {
      SlowHolderBound(capacity, evs, delay, now, k);
      assert k * span <= k * (SIXTY_SECONDS - delay);
      HeldGrows(capacity, evs, now - k * span, now - k * (SIXTY_SECONDS - delay), now);
    }
  }

  lemma {:induction false} SpanTooLong(capacity: nat, delay: nat, span: nat)
    requires capacity > 0 && span > 0 && span + delay > SIXTY_SECONDS
    ensures exists evs: seq<Event>, now ::
              FreshIds(evs) && Sampled(evs, delay) && !SpanBound(capacity, evs, span, now, 1)
  {
    hide FreshIds, Sampled, HeldBetween, Name;
    var d := if delay < SIXTY_SECONDS then delay else SIXTY_SECONDS;
    RefillsAreSampled(capacity, d, delay);
    RefillsHold(capacity, d, SIXTY_SECONDS - d - span, SIXTY_SECONDS - d, 0, 2 * capacity);
    assert !SpanBound(capacity, Refills(capacity, d), span, SIXTY_SECONDS - d, 1);
  }

  function AtMost(delay: nat): nat {
    if delay < SIXTY_SECONDS then delay else SIXTY_SECONDS
  }

  /** And at the moments of a run: at most `k * capacity` unreleased holders are younger than
      `k` full slot lifetimes in all runs if and only if clocks are read as scripts run. */
  lemma {:induction false} MomentIff(capacity: nat, delay: nat)
    requires capacity > 0
    ensures (forall evs: seq<Event>, now, k: nat | FreshIds(evs) && Sampled(evs, delay) && Past(evs, now) ::
               SpanBound(capacity, evs, 60_000_000, now, k))
            <==> delay == 0
  {
    hide FreshIds, Sampled, Past, HeldBetween, Refills;
    if delay == 0 {
      forall evs: seq<Event>, now, k: nat | FreshIds(evs) && Sampled(evs, delay) && Past(evs, now)
        ensures SpanBound(capacity, evs, SIXTY_SECONDS, now, k)
      {
        ShorterSpan(capacity, evs, delay, SIXTY_SECONDS, now, k);
      }
    } else {
      ThreeFillings(capacity, AtMost(delay));
      RefillsAreSampled(capacity, AtMost(delay), delay);
    }
  }

  lemma {:induction false} ThreeFillings(capacity: nat, delay: nat)
    requires capacity > 0 && 0 < delay <= SIXTY_SECONDS
    ensures !SpanBound(capacity, Refills(capacity, delay), SIXTY_SECONDS, 2 * SIXTY_SECONDS - delay, 2)
  {
    hide HeldBetween, Name;
    RefillsHold(capacity, delay, 0 - delay, 2 * SIXTY_SECONDS - delay, 0, 2 * capacity + 1);
  }

  predicate FilledOnce(members: map<string, int>, n: nat) {
    |members| == n && forall id :: id in members ==> members[id] == 0 && |id| < n
  }

  lemma {:induction false} FillOneMore(members: map<string, int>, n: nat, capacity: nat)
    requires FilledOnce(members, n) && n < capacity
    ensures FilledOnce(Admit(members, capacity, 0, Name(n)).members, n + 1)
  {
    NothingStale(members, 0 - SIXTY_SECONDS);
    assert |Name(n)| == n;
    hide Name, Evict;
    assert Name(n) !in members;
  }

  /** Without expiry the second filling finds the first one still there. */
  lemma {:induction false} ForeverFull(capacity: nat, delay: nat, n: nat)
    requires 0 < delay <= SIXTY_SECONDS && n <= capacity
    ensures FilledOnce(ForeverAfter(capacity, Refills(capacity, delay), n), n)
  {
    hide Name, Admit, FilledOnce;
    if n == 0 {
      NoneFilled();
    } else {
      ForeverFull(capacity, delay, n - 1);
      FillOneMore(ForeverAfter(capacity, Refills(capacity, delay), n - 1), n - 1, capacity);
    }
  }

  lemma {:induction false} NoneFilled()
    ensures FilledOnce(map[], 0)
  {
  }

  lemma {:induction false} NothingStale(members: map<string, int>, cutoff: int)
    requires forall id :: id in members ==> members[id] > cutoff
    ensures Evict(members, cutoff) == members
  {
  }

  lemma {:induction false} ExpiryDecided(capacity: nat, delay: nat)
    requires capacity > 0 && 0 < delay <= SIXTY_SECONDS
    ensures var evs := Refills(capacity, delay);
            capacity < |evs| && evs[capacity].Acquire?
            && Told(capacity, evs, capacity).admitted && !ToldForever(capacity, evs, capacity).admitted
  {
    hide Name;
    RefillsAdmit(capacity, delay, capacity);
    ForeverFull(capacity, delay, capacity);
    NothingStale(ForeverAfter(capacity, Refills(capacity, delay), capacity), 0 - delay);
  }

  lemma {:induction false} NothingFits(stamp: int, id: string)
    ensures Admit(map[], 0, stamp, id) == Admission(map[], Handle(false, 0))
  {
    assert Evict(map[], stamp - SIXTY_SECONDS) == map[];
  }

  lemma {:induction false} NothingAdmitted(evs: seq<Event>, n: nat)
    requires n <= |evs|
    ensures SlotsAfter(0, evs, n).members == map[] && ForeverAfter(0, evs, n) == map[]
  {
    hide Admit;
    if n > 0 {
      NothingAdmitted(evs, n - 1);
      var e := evs[n - 1];
      if e.Acquire? { NothingFits(e.stamp, e.id); }
    }
  }

  /** The expiry of the whole key changes what no acquire of any run is told if and only if
      clocks are read as scripts run, or nothing is ever admitted. */
  lemma {:induction false} KeyExpiryIff(capacity: nat, delay: nat)
    ensures (forall evs: seq<Event>, n: nat | Sampled(evs, delay) && n < |evs| && evs[n].Acquire? ::
               Told(capacity, evs, n) == ToldForever(capacity, evs, n))
            <==> delay == 0 || capacity == 0
  {
    if delay == 0 || capacity == 0 {
      forall evs: seq<Event>, n: nat | Sampled(evs, delay) && n < |evs| && evs[n].Acquire?
        ensures Told(capacity, evs, n) == ToldForever(capacity, evs, n)
      {
        if delay == 0 { KeyExpiryIsTransparent(capacity, evs, n); } else { NothingAdmitted(evs, n); }
      }
    } else {
      hide Refills, Told, ToldForever, Sampled;
      ExpiryDecided(capacity, AtMost(delay));
      RefillsAreSampled(capacity, AtMost(delay), delay);
    }
  }
}
