/**
  The expiring key/value cache: `CacheEntry` keeps the serialized bytes of one value and the
  instant it expires, `CacheLite` maps string keys to entries, and `CacheScheduler` keeps the
  caches subscribed to it and, on each tick, has every one of them scavenge its expired entries.

  Instants and durations are `DateTime` and `TimeSpan` ticks. The clock is not read: every
  operation that reads `DateTime.Now` takes the instant as a parameter `now`. The background
  timer is a record of how it was started; its tick is a call of `Update`.
*/
module Cache {
  import opened Wrappers
  import opened Exceptions
  import opened Values
  import opened Condition
  import opened Bytes

  const TicksPerSecond: int := 10_000_000

  /** `TimeSpan.MaxValue`, the expiry that means "never". */
  const TimeSpanMaxValue: int := 0x7FFF_FFFF_FFFF_FFFF

  /** `DateTime.MaxValue`. */
  const DateTimeMaxValue: int := 3_155_378_975_999_999_999

  /** The instant an entry with the given expiry expires when touched at `now`. */
  function ExpiresAt(expiry: int, now: int): int {
    if expiry == TimeSpanMaxValue then DateTimeMaxValue else now + expiry
  }

  /** A later touch never moves the expiry instant back. */
  lemma ExpiresAtMonotonic(expiry: int, now: int, later: int)
    requires now <= later
    ensures ExpiresAt(expiry, now) <= ExpiresAt(expiry, later)
  {
  }

  /** With a non-negative expiry, an entry touched at `now` has not expired before `now`. */
  lemma ExpiresNotBeforeTouch(expiry: int, now: int)
    requires 0 <= expiry && now <= DateTimeMaxValue
    ensures now <= ExpiresAt(expiry, now)
  {
  }

  // Serialization

  /** What a cache needs of a type's serialization: the bytes of a value, the value of some
      bytes, and `default(T)`, which is `None` (null) for a reference type. */
  datatype Codec<!T> = Codec(serialize: T -> seq<byte>, deserialize: seq<byte> -> T, defaultValue: Option<T>)

  /** Deserializing what was serialized gives the value back. */
  ghost predicate RoundTrips<T(!new)>(codec: Codec<T>) {
    forall v :: codec.deserialize(codec.serialize(v)) == v
  }

  /** `Serialization.ToBytes`: the default value is stored as null bytes. */
  function ToBytes<T(==)>(codec: Codec<T>, value: T): (bytes: Option<seq<byte>>)
    ensures bytes.None? <==> Some(value) == codec.defaultValue
  {
    if Some(value) == codec.defaultValue then None else Some(codec.serialize(value))
  }

  /** `Serialization.FromBytes`: null bytes give the default value. */
  function FromBytes<T>(codec: Codec<T>, bytes: Option<seq<byte>>): (value: Option<T>)
    ensures bytes.None? ==> value == codec.defaultValue
  {
    match bytes
    case None => codec.defaultValue
    case Some(b) => Some(codec.deserialize(b))
  }

  /** A value stored through `ToBytes` comes back from `FromBytes`, the default value included. */
  lemma BytesRoundTrip<T(!new)>(codec: Codec<T>, value: T)
    requires RoundTrips(codec)
    ensures FromBytes(codec, ToBytes(codec, value)) == Some(value)
  {
  }

  /** A `T` passed as `object`: for `Condition.IsNotNull` only whether it is null matters. */
  function Boxed<T>(value: Option<T>): (v: Value)
    ensures v == Null <==> value.None?
  {
    if value.None? then Null else Other(0)
  }

  // CacheEntry

  class CacheEntry {
    const bytes: Option<seq<byte>>
    const expiry: int
    var expires: int

    /** Stores the bytes and the expiry, then touches the entry. */
    constructor(bytes: Option<seq<byte>>, expiry: int, now: int)
      ensures this.bytes == bytes && this.expiry == expiry
      ensures expires == ExpiresAt(expiry, now)
    {
      this.bytes := bytes;
      this.expiry := expiry;
      new;
      Touch(now);
    }

    /** Restarts the entry's lifetime at `now`; a second touch at the same instant gives the
        same `expires`. */
    method Touch(now: int)
      modifies this
      ensures expires == ExpiresAt(expiry, now)
    {
      expires := if expiry == TimeSpanMaxValue then DateTimeMaxValue else now + expiry;
    }
  }

  // CacheLite

  /** No entry object is shared by two keys: every `Set` makes its own entry. */
  ghost predicate Distinct(m: map<string, CacheEntry>) {
    forall k1, k2 :: k1 in m && k2 in m && k1 != k2 ==> m[k1] != m[k2]
  }

  /** The entries that have not expired at `now`. */
  function Live(m: map<string, CacheEntry>, now: int): (live: map<string, CacheEntry>)
    reads m.Values
  {
    map k | k in m && now < m[k].expires :: m[k]
  }

  /** A key survives scavenging exactly when its entry has not expired, and keeps its entry. */
  lemma LiveKeys(m: map<string, CacheEntry>, now: int, k: string)
    ensures k in Live(m, now) <==> k in m && now < m[k].expires
    ensures k in Live(m, now) ==> Live(m, now)[k] == m[k]
  {
  }

  /** Scavenging twice at the same instant is scavenging once. */
  lemma LiveIdempotent(m: map<string, CacheEntry>, now: int)
    ensures Live(Live(m, now), now) == Live(m, now)
  {
  }

  /** Scavenging keeps the entries distinct. */
  lemma LiveDistinct(m: map<string, CacheEntry>, now: int)
    requires Distinct(m)
    ensures Distinct(Live(m, now))
  {
  }

  class CacheLite {
    var store: map<string, CacheEntry>
    const scheduler: Option<CacheScheduler>

    ghost predicate Valid()
      reads this
    {
      Distinct(store)
    }

    /** An empty cache, subscribed to the scheduler when there is one. */
    constructor(scheduler: Option<CacheScheduler>)
      modifies if scheduler.Some? then {scheduler.value} else {}
      ensures this.scheduler == scheduler && store == map[] && Valid()
      ensures scheduler.Some? ==>
        scheduler.value.subscribers == old(scheduler.value.subscribers) + [this] &&
        scheduler.value.timer == CheckedTimer(old(scheduler.value.timer), InvocationCount(scheduler.value.subscribers), scheduler.value.period)
    {
      this.scheduler := scheduler;
      store := map[];
      new;
      if scheduler.Some? {
        scheduler.value.Subscribe(this);
      }
    }

    /** Stores the value under the key in a new entry that expires as a touch at `now` says.
        A null or empty key, then a null value, fails before the store is touched. */
    method Set<T(==)>(key: Option<string>, value: Option<T>, expiry: int, codec: Codec<T>, now: int) returns (r: Outcome)
      requires Valid()
      modifies this
      ensures Valid()
      ensures IsNullOrEmpty(key) ==> r == Fail(ConditionException(Some("key")))
      ensures !IsNullOrEmpty(key) && value.None? ==> r == Fail(ConditionException(Some("value")))
      ensures r.Fail? ==> store == old(store)
      ensures r.Pass? <==> !IsNullOrEmpty(key) && value.Some?
      ensures r.Pass? ==>
        store.Keys == old(store).Keys + {key.value} &&
        fresh(store[key.value]) &&
        store[key.value].bytes == ToBytes(codec, value.value) &&
        store[key.value].expiry == expiry &&
        store[key.value].expires == ExpiresAt(expiry, now) &&
        forall k :: k in old(store) && k != key.value ==> store[k] == old(store)[k]
    {
      r := IsTrueWithMessage(!IsNullOrEmpty(key), Some("key"));
      if r.Fail? {
        return;
      }
      r := IsNotNullWithMessage(Boxed(value), Some("value"));
      if r.Fail? {
        return;
      }
      var entry := new CacheEntry(ToBytes(codec, value.value), expiry, now);
      store := store[key.value := entry];
    }

    /** The value stored under the key, or `default(T)` when there is none; a hit touches that
        entry and no other. A null or empty key fails. */
    method Get<T>(key: Option<string>, codec: Codec<T>, now: int) returns (r: Result<Option<T>>)
      requires Valid()
      modifies store.Values
      ensures store == old(store)
      ensures IsNullOrEmpty(key) ==> r == Throw(ConditionException(Some("key")))
      ensures !IsNullOrEmpty(key) && key.value !in store ==> r == Ok(codec.defaultValue)
      ensures !IsNullOrEmpty(key) && key.value in store ==>
        r == Ok(FromBytes(codec, store[key.value].bytes)) &&
        store[key.value].expires == ExpiresAt(store[key.value].expiry, now)
      ensures forall k :: k in store && (IsNullOrEmpty(key) || k != key.value) ==>
        store[k].expires == old(store[k].expires)
    {
      var check := IsTrueWithMessage(!IsNullOrEmpty(key), Some("key"));
      if check.Fail? {
        return Throw(check.error);
      }
      var value := codec.defaultValue;
      if key.value in store {
        var entry := store[key.value];
        value := FromBytes(codec, entry.bytes);
        entry.Touch(now);
      }
      return Ok(value);
    }

    /** Removes the key's entry, if any. A null or empty key fails. */
    method Remove(key: Option<string>) returns (r: Outcome)
      requires Valid()
      modifies this
      ensures Valid()
      ensures IsNullOrEmpty(key) ==> r == Fail(ConditionException(Some("key"))) && store == old(store)
      ensures !IsNullOrEmpty(key) ==> r == Pass && store == old(store) - {key.value}
    {
      r := IsTrueWithMessage(!IsNullOrEmpty(key), Some("key"));
      if r.Fail? {
        return;
      }
      store := store - {key.value};
    }

    /** Whether the key has an entry; no entry is touched. A null or empty key fails. */
    method Exists(key: Option<string>) returns (r: Result<bool>)
      ensures IsNullOrEmpty(key) ==> r == Throw(ConditionException(Some("key")))
      ensures !IsNullOrEmpty(key) ==> r == Ok(key.value in store)
    {
      var check := IsTrueWithMessage(!IsNullOrEmpty(key), Some("key"));
      if check.Fail? {
        return Throw(check.error);
      }
      return Ok(key.value in store);
    }

    /** Empties the store. */
    method Clear()
      modifies this
      ensures store == map[] && Valid()
    {
      store := map[];
    }

    /** Removes every entry that has expired at `now`, and nothing else. This is also what the
        cache does when its scheduler ticks. */
    method Scavenge(now: int)
      modifies this
      ensures store == Live(old(store), now)
      ensures old(Valid()) ==> Valid()
    {
      ghost var original := store;
      var expired := set k | k in store && now >= store[k].expires;
      while expired != {}
        invariant expired <= original.Keys
        invariant store == map k | k in original && (k in expired || now < original[k].expires) :: original[k]
        decreases expired
      {
        var k :| k in expired;
        store := store - {k};
        expired := expired - {k};
      }
      if old(Valid()) {
        LiveDistinct(original, now);
      }
    }

    /** Unsubscribes the cache from its scheduler. */
    method Dispose()
      modifies if scheduler.Some? then {scheduler.value} else {}
      ensures scheduler.Some? ==>
        scheduler.value.subscribers == RemoveLast(old(scheduler.value.subscribers), this) &&
        scheduler.value.timer == CheckedTimer(old(scheduler.value.timer), InvocationCount(scheduler.value.subscribers), scheduler.value.period)
    {
      if scheduler.Some? {
        scheduler.value.Unsubscribe(this);
      }
    }
  }

  // CacheScheduler

  /** A started timer: its due time and its period, in ticks, and whether it was disposed. */
  datatype Timer = Timer(dueTime: int, interval: int, disposed: bool)

  /** The period a scheduler uses: 60 seconds for `default(TimeSpan)`. */
  function PeriodOf(period: int): int {
    if period == 0 then 60 * TicksPerSecond else period
  }

  /** The length of the invocation list of the `_subscribe` delegate, which is null (`None`)
      when nothing is subscribed. */
  function InvocationCount(subscribers: seq<CacheLite>): (count: Option<int>)
    ensures count.None? <==> subscribers == []
    ensures count.Some? ==> count.value == |subscribers|
  {
    if subscribers == [] then None else Some(|subscribers|)
  }

  /** The timer after `Check`: stopped when the lifted `count <= 0` holds, otherwise started
      with the period unless one already exists. */
  function CheckedTimer(timer: Option<Timer>, count: Option<int>, period: int): Option<Timer> {
    if LiftedAtMost(count, 0) then None
    else if timer.None? then Some(Timer(period, period, false))
    else timer
  }

  /** The stop branch is dead: whatever the subscribers, `Check` leaves an existing timer as it
      was and starts one when there is none. */
  lemma CheckNeverStops(timer: Option<Timer>, subscribers: seq<CacheLite>, period: int)
    ensures CheckedTimer(timer, InvocationCount(subscribers), period) ==
      if timer.None? then Some(Timer(period, period, false)) else timer
  {
  }

  /** `-=` on a multicast delegate: the last occurrence of the handler goes, and a handler that
      is not there leaves the list as it was. */
  function RemoveLast(s: seq<CacheLite>, c: CacheLite): (r: seq<CacheLite>)
    ensures c !in s ==> r == s
    ensures c in s ==> |r| == |s| - 1
  {
    if s == [] then s
    else if s[|s| - 1] == c then s[..|s| - 1]
    else RemoveLast(s[..|s| - 1], c) + [s[|s| - 1]]
  }

  /** Removing takes out exactly one occurrence of a subscribed handler. */
  lemma {:induction false} RemoveLastMultiset(s: seq<CacheLite>, c: CacheLite)
    ensures multiset(RemoveLast(s, c)) == multiset(s) - multiset{c}
  {
    if s != [] {
      var front, last := s[..|s| - 1], s[|s| - 1];
      assert s == front + [last];
      if last != c {
        RemoveLastMultiset(front, c);
      }
    }
  }

  /** Removing the handler just added restores the list. */
  lemma RemoveLastOfAdded(s: seq<CacheLite>, c: CacheLite)
    ensures RemoveLast(s + [c], c) == s
  {
    assert (s + [c])[..|s|] == s;
  }

  class CacheScheduler {
    const period: int
    var subscribers: seq<CacheLite>
    var timer: Option<Timer>

    /** A scheduler with nothing subscribed and no timer. */
    constructor(period: int)
      ensures this.period == PeriodOf(period)
      ensures this.period == (if period == 0 then 600_000_000 else period)
      ensures subscribers == [] && timer == None
    {
      this.period := if period == 0 then 60 * TicksPerSecond else period;
      subscribers := [];
      timer := None;
    }

    /** Disposes the timer, if any; the subscribers stay. */
    method Dispose()
      modifies this
      ensures subscribers == old(subscribers)
      ensures timer == if old(timer).Some? then Some(old(timer).value.(disposed := true)) else None
    {
      if timer.Some? {
        timer := Some(timer.value.(disposed := true));
      }
    }

    /** Starts the timer when there are subscribers and none is running; the branch that would
        stop it needs a lifted comparison with null to hold, and never runs. */
    method Check()
      modifies this
      ensures subscribers == old(subscribers)
      ensures timer == CheckedTimer(old(timer), InvocationCount(subscribers), period)
    {
      timer := CheckedTimer(timer, InvocationCount(subscribers), period);
    }

    /** The tick: each subscribed cache scavenges at `now`, in the order of subscription. A cache
        subscribed twice scavenges twice, to the same effect. */
    method Update(now: int)
      modifies set c | c in subscribers
      ensures forall c :: c in subscribers ==> c.store == Live(old(c.store), now)
    {
      var i := 0;
      while i < |subscribers|
        invariant 0 <= i <= |subscribers|
        invariant forall c :: c in subscribers ==>
          c.store == if c in subscribers[..i] then Live(old(c.store), now) else old(c.store)
      {
        var c := subscribers[i];
        ghost var before := c.store;
        c.Scavenge(now);
        if c in subscribers[..i] {
          LiveIdempotent(old(c.store), now);
        }
        assert subscribers[..i + 1] == subscribers[..i] + [c];
        i := i + 1;
      }
      assert subscribers[..i] == subscribers;
    }

    /** `Subscribe += handler`: appends, then checks the timer. */
    method Subscribe(c: CacheLite)
      modifies this
      ensures subscribers == old(subscribers) + [c]
      ensures timer == CheckedTimer(old(timer), InvocationCount(subscribers), period)
    {
      subscribers := subscribers + [c];
      Check();
    }

    /** `Subscribe -= handler`: removes the last occurrence, then checks the timer. */
    method Unsubscribe(c: CacheLite)
      modifies this
      ensures subscribers == RemoveLast(old(subscribers), c)
      ensures timer == CheckedTimer(old(timer), InvocationCount(subscribers), period)
    {
      subscribers := RemoveLast(subscribers, c);
      Check();
    }
  }
}
