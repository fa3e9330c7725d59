/**
  Sequences of cache and scheduler calls, each on fresh objects, and what they end in.
*/
module CacheScenarios {
  import opened Wrappers
  import opened Exceptions
  import opened Cache

  /** A value set under a key is what a later `Get` of that key returns. */
  method SetThenGet<T(==,!new)>(key: string, value: T, expiry: int, codec: Codec<T>, now: int, later: int)
    returns (r: Result<Option<T>>)
    requires key != "" && RoundTrips(codec)
    ensures r == Ok(Some(value))
  {
    var cache := new CacheLite(None);
    var _ := cache.Set(Some(key), Some(value), expiry, codec, now);
    r := cache.Get(Some(key), codec, later);
    BytesRoundTrip(codec, value);
  }

  /** A key that was set exists. */
  method SetThenExists<T(==)>(key: string, value: T, expiry: int, codec: Codec<T>, now: int)
    returns (r: Result<bool>)
    requires key != ""
    ensures r == Ok(true)
  {
    var cache := new CacheLite(None);
    var _ := cache.Set(Some(key), Some(value), expiry, codec, now);
    r := cache.Exists(Some(key));
  }

  /** A key that was set and then removed no longer exists. */
  method SetThenRemove<T(==)>(key: string, value: T, expiry: int, codec: Codec<T>, now: int)
    returns (r: Result<bool>)
    requires key != ""
    ensures r == Ok(false)
  {
    var cache := new CacheLite(None);
    var _ := cache.Set(Some(key), Some(value), expiry, codec, now);
    var _ := cache.Remove(Some(key));
    r := cache.Exists(Some(key));
  }

  /** After `Clear` no key exists. */
  method SetThenClear<T(==)>(key: string, value: T, expiry: int, codec: Codec<T>, now: int)
    returns (r: Result<bool>)
    requires key != ""
    ensures r == Ok(false)
  {
    var cache := new CacheLite(None);
    var _ := cache.Set(Some(key), Some(value), expiry, codec, now);
    cache.Clear();
    r := cache.Exists(Some(key));
  }

  /** A key that was never set reads as `default(T)`. */
  method GetMissing<T>(key: string, codec: Codec<T>, now: int) returns (r: Result<Option<T>>)
    requires key != ""
    ensures r == Ok(codec.defaultValue)
  {
    var cache := new CacheLite(None);
    r := cache.Get(Some(key), codec, now);
  }

  /** The empty key is refused by every keyed operation, and a null value by `Set`. */
  method EmptyKeyRejected<T(==)>(codec: Codec<T>, value: T, now: int)
    returns (set_: Outcome, get: Result<Option<T>>, exists_: Result<bool>, remove: Outcome, nullValue: Outcome)
    ensures set_ == Fail(ConditionException(Some("key")))
    ensures get == Throw(ConditionException(Some("key")))
    ensures exists_ == Throw(ConditionException(Some("key")))
    ensures remove == Fail(ConditionException(Some("key")))
    ensures nullValue == Fail(ConditionException(Some("value")))
  {
    var cache := new CacheLite(None);
    set_ := cache.Set(Some(""), Some(value), TimeSpanMaxValue, codec, now);
    get := cache.Get(None, codec, now);
    exists_ := cache.Exists(Some(""));
    remove := cache.Remove(None);
    nullValue := cache.Set(Some("id1"), None, TimeSpanMaxValue, codec, now);
  }

  /** An entry set for one second at `now` survives a tick at `now` and is gone after a tick
      at `later` exactly when a second has passed. */
  method ScheduledExpiry<T(==)>(value: T, codec: Codec<T>, now: int, later: int)
    returns (first: Result<bool>, second: Result<bool>)
    ensures first == Ok(true)
    ensures second == Ok(later < now + TicksPerSecond)
  {
    var scheduler := new CacheScheduler(5 * TicksPerSecond);
    var cache := new CacheLite(Some(scheduler));
    var _ := cache.Set(Some("id1"), Some(value), TicksPerSecond, codec, now);
    scheduler.Update(now);
    first := cache.Exists(Some("id1"));
    scheduler.Update(later);
    second := cache.Exists(Some("id1"));
  }

  /** Disposing the only subscribed cache leaves no subscriber but the timer running, with
      the default period of 60 seconds. */
  method DisposeKeepsTimer() returns (subscribers: seq<CacheLite>, timer: Option<Timer>)
    ensures subscribers == [] && timer == Some(Timer(600_000_000, 600_000_000, false))
  {
    var scheduler := new CacheScheduler(0);
    var cache := new CacheLite(Some(scheduler));
    cache.Dispose();
    subscribers, timer := scheduler.subscribers, scheduler.timer;
  }

  /** Removing a handler from an idle scheduler starts its timer. */
  method UnsubscribeIdleStartsTimer(period: int) returns (subscribers: seq<CacheLite>, timer: Option<Timer>)
    ensures subscribers == [] && timer == Some(Timer(PeriodOf(period), PeriodOf(period), false))
  {
    var scheduler := new CacheScheduler(period);
    var cache := new CacheLite(None);
    scheduler.Unsubscribe(cache);
    subscribers, timer := scheduler.subscribers, scheduler.timer;
  }
}
