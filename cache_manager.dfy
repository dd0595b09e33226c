/**
 * The cache manager: every operation goes to the primary provider while it is connected
 * and to the fallback provider otherwise, and some operations turn a provider failure
 * into a default answer.
 *
 * A provider call either returns, throws before it hands back its task, or hands back a
 * task that faults later. A `try`/`catch` around a call that returns the task unawaited
 * only sees the first kind of failure; one around an awaited call sees both.
 */
module CacheManager {
  import opened Wrappers

  datatype Provider = Primary | Fallback

  /** What one call on a provider does. */
  datatype Call<T> = Returns(value: T) | ThrowsOnStart | FaultsLater

  /** What the caller of the manager observes: a value, or an exception. */
  datatype Observed<T> = Value(value: T) | Raised

  /** The primary provider while it is connected, the fallback otherwise. */
  function GetCurrentCacheProvider(primaryConnected: bool): (p: Provider)
    ensures p == Primary <==> primaryConnected
  {
    if primaryConnected then Primary else Fallback
  }

  /** Whether the manager is on the fallback provider. */
  function IsUsingFallback(primaryConnected: bool): (b: bool)
    ensures b <==> GetCurrentCacheProvider(primaryConnected) == Fallback
  {
    !primaryConnected
  }

  /** A call whose task is awaited inside the `try`: every failure becomes `otherwise`. */
  function Awaited<T>(call: Call<T>, otherwise: T): (r: Observed<T>)
    ensures r.Value?
    ensures r.value == (if call.Returns? then call.value else otherwise)
  {
    match call
    case Returns(v) => Value(v)
    case _ => Value(otherwise)
  }

  /** A call whose task is returned from inside the `try`: only a synchronous throw is caught. */
  function Unawaited<T>(call: Call<T>, otherwise: T): (r: Observed<T>)
    ensures r.Raised? <==> call.FaultsLater?
    ensures call.Returns? ==> r == Value(call.value)
    ensures call.ThrowsOnStart? ==> r == Value(otherwise)
  {
    match call
    case Returns(v) => Value(v)
    case ThrowsOnStart => Value(otherwise)
    case FaultsLater => Raised
  }

  /** A call outside any `try`: every failure reaches the caller. */
  function Unguarded<T>(call: Call<T>): (r: Observed<T>)
    ensures r.Raised? <==> !call.Returns?
    ensures call.Returns? ==> r == Value(call.value)
  {
    match call
    case Returns(v) => Value(v)
    case _ => Raised
  }

  /**
   * The operations, given whether the primary is connected and how each provider behaves
   * on this call. `GetAsync` yields null on a synchronous failure, `Get` and
   * `GetStringAsync` pass every failure through, `SetStringAsync` and `ExistsAsync` yield
   * false on every failure, and `SetAsync` and `RemoveAsync` yield false only on a
   * synchronous one.
   */
  function GetAsync<V>(primaryConnected: bool, behaviour: Provider -> Call<Option<V>>): Observed<Option<V>> {
    Unawaited(behaviour(GetCurrentCacheProvider(primaryConnected)), None)
  }

  function Get<V>(primaryConnected: bool, behaviour: Provider -> Call<Option<V>>): Observed<Option<V>> {
    Unguarded(behaviour(GetCurrentCacheProvider(primaryConnected)))
  }

  function GetStringAsync(primaryConnected: bool, behaviour: Provider -> Call<Option<string>>): Observed<Option<string>> {
    Unguarded(behaviour(GetCurrentCacheProvider(primaryConnected)))
  }

  function SetStringAsync(primaryConnected: bool, behaviour: Provider -> Call<bool>): Observed<bool> {
    Awaited(behaviour(GetCurrentCacheProvider(primaryConnected)), false)
  }

  function SetAsync(primaryConnected: bool, behaviour: Provider -> Call<bool>): Observed<bool> {
    Unawaited(behaviour(GetCurrentCacheProvider(primaryConnected)), false)
  }

  function RemoveAsync(primaryConnected: bool, behaviour: Provider -> Call<bool>): Observed<bool> {
    Unawaited(behaviour(GetCurrentCacheProvider(primaryConnected)), false)
  }

  function ExistsAsync(primaryConnected: bool, behaviour: Provider -> Call<bool>): Observed<bool> {
    Awaited(behaviour(GetCurrentCacheProvider(primaryConnected)), false)
  }

  /**
   * Only the selected provider matters: two behaviours that agree on it give the same
   * answer for every operation, so while the primary is connected the fallback is never
   * consulted and vice versa.
   */
  lemma OnlySelectedProviderMatters(primaryConnected: bool, b1: Provider -> Call<bool>, b2: Provider -> Call<bool>,
                                    g1: Provider -> Call<Option<string>>, g2: Provider -> Call<Option<string>>)
    requires b1(GetCurrentCacheProvider(primaryConnected)) == b2(GetCurrentCacheProvider(primaryConnected))
    requires g1(GetCurrentCacheProvider(primaryConnected)) == g2(GetCurrentCacheProvider(primaryConnected))
    ensures SetStringAsync(primaryConnected, b1) == SetStringAsync(primaryConnected, b2)
    ensures SetAsync(primaryConnected, b1) == SetAsync(primaryConnected, b2)
    ensures RemoveAsync(primaryConnected, b1) == RemoveAsync(primaryConnected, b2)
    ensures ExistsAsync(primaryConnected, b1) == ExistsAsync(primaryConnected, b2)
    ensures GetAsync(primaryConnected, g1) == GetAsync(primaryConnected, g2)
    ensures GetStringAsync(primaryConnected, g1) == GetStringAsync(primaryConnected, g2)
  {
  }

  /**
   * Which failures reach the caller: a healthy provider is transparent for every
   * operation; `SetStringAsync` and `ExistsAsync` never raise; a task that faults later
   * escapes `GetAsync`, `SetAsync` and `RemoveAsync`; `GetStringAsync` raises on any failure.
   */
  lemma FailureVisibility(primaryConnected: bool, b: Provider -> Call<bool>, g: Provider -> Call<Option<string>>)
    ensures var call := b(GetCurrentCacheProvider(primaryConnected));
      && SetStringAsync(primaryConnected, b).Value?
      && ExistsAsync(primaryConnected, b).Value?
      && (SetAsync(primaryConnected, b).Raised? <==> call.FaultsLater?)
      && (RemoveAsync(primaryConnected, b).Raised? <==> call.FaultsLater?)
      && (call.Returns? ==> SetAsync(primaryConnected, b) == SetStringAsync(primaryConnected, b) == Value(call.value))
      && (!call.Returns? ==> SetStringAsync(primaryConnected, b) == Value(false))
    ensures var call := g(GetCurrentCacheProvider(primaryConnected));
      && (GetAsync(primaryConnected, g).Raised? <==> call.FaultsLater?)
      && (GetStringAsync(primaryConnected, g).Raised? <==> !call.Returns?)
      && (call.ThrowsOnStart? ==> GetAsync(primaryConnected, g) == Value(None))
      && (call.Returns? ==> GetAsync(primaryConnected, g) == GetStringAsync(primaryConnected, g) == Value(call.value))
  {
  }
}
