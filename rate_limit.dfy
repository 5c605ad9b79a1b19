/**
 * The tenant-aware rate limiter: a per-organization request ceiling looked
 * up in the organization table and kept in an in-memory cache for five
 * minutes. The request counting itself belongs to the rate-limiting library
 * and is not part of this model.
 */
module RateLimit {
  import opened Wrappers
  import opened Records

  /** How long a cached ceiling is served without a lookup: five minutes. */
  const TenantCacheTtl: int := 5 * 60 * 1000

  /** The ceiling used when the organization sets none, or the lookup fails. */
  const DefaultLimit: int := 100

  /** A cached ceiling and the time it was looked up. */
  datatype CacheEntry = CacheEntry(limit: int, timestamp: Millis)

  /** The outcome of `organization.findUnique`: it throws, finds no row, or finds the row's `rateLimit`. */
  datatype TenantLookup = LookupFails | NoTenant | Tenant(rateLimit: Option<int>)

  /** The authenticated caller as the limiter sees it. */
  datatype RequestUser = RequestUser(organizationId: Id, isApiKey: bool)

  /** An entry is served from the cache while strictly less than the TTL old. */
  predicate Fresh(entry: CacheEntry, now: Millis) {
    now - entry.timestamp < TenantCacheTtl
  }

  /** `tenant?.rateLimit || 100`: a missing row, a null and a zero ceiling all fall back to the default. */
  function ConfiguredLimit(lookup: TenantLookup): (r: int)
    requires !lookup.LookupFails?
    ensures r != 0
    ensures r == DefaultLimit <==> lookup.NoTenant? || lookup.rateLimit in {None, Some(0), Some(DefaultLimit)}
    ensures r != DefaultLimit ==> lookup == Tenant(Some(r))
  {
    match lookup
    case NoTenant => DefaultLimit
    case Tenant(rateLimit) => if rateLimit.None? || rateLimit.value == 0 then DefaultLimit else rateLimit.value
  }

  /**
   * What `getTenantLimit(organizationId)` answers at `now`, and the cache
   * after it, when the organization lookup (consulted only on a miss) has
   * outcome `lookup`.
   */
  function TenantLimit(entries: map<Id, CacheEntry>, organizationId: Id, now: Millis, lookup: TenantLookup)
    : (r: (int, map<Id, CacheEntry>))
  {
    if organizationId in entries && Fresh(entries[organizationId], now) then (entries[organizationId].limit, entries)
    else if lookup.LookupFails? then (DefaultLimit, entries)
    else
      var limit := ConfiguredLimit(lookup);
      (limit, entries[organizationId := CacheEntry(limit, now)])
  }

  /** A fresh entry answers the call and nothing is written. */
  lemma FreshEntryServed(entries: map<Id, CacheEntry>, organizationId: Id, now: Millis, lookup: TenantLookup)
    requires organizationId in entries && now - entries[organizationId].timestamp < 300000
    ensures TenantLimit(entries, organizationId, now, lookup) == (entries[organizationId].limit, entries)
  {
  }

  /**
   * A miss (no entry, or one at least the TTL old) stores the looked-up
   * ceiling stamped `now`; a failing lookup answers the default and writes
   * nothing.
   */
  lemma MissRefreshes(entries: map<Id, CacheEntry>, organizationId: Id, now: Millis, lookup: TenantLookup)
    requires organizationId !in entries || now - entries[organizationId].timestamp >= 300000
    ensures var (limit, after) := TenantLimit(entries, organizationId, now, lookup);
            if lookup.LookupFails? then limit == 100 && after == entries
            else && limit == ConfiguredLimit(lookup)
                 && organizationId in after && after[organizationId] == CacheEntry(limit, now)
  {
  }

  /** Only the queried organization's entry can change. */
  lemma OtherEntriesKept(entries: map<Id, CacheEntry>, organizationId: Id, now: Millis, lookup: TenantLookup)
    ensures var after := TenantLimit(entries, organizationId, now, lookup).1;
            && after.Keys <= entries.Keys + {organizationId}
            && forall k :: k in entries && k != organizationId ==> k in after && after[k] == entries[k]
  {
  }

  /** A second call within the TTL of a successful miss answers the same ceiling, whatever its lookup would be. */
  lemma RepeatWithinTtl(entries: map<Id, CacheEntry>, organizationId: Id, now: Millis, later: Millis,
                        lookup: TenantLookup, second: TenantLookup)
    requires organizationId !in entries || !Fresh(entries[organizationId], now)
    requires !lookup.LookupFails? && now <= later < now + TenantCacheTtl
    ensures var (limit, after) := TenantLimit(entries, organizationId, now, lookup);
            TenantLimit(after, organizationId, later, second) == (limit, after)
  {
  }

  /** No cached ceiling is zero. */
  predicate NoZeroLimits(entries: map<Id, CacheEntry>) {
    forall k :: k in entries ==> entries[k].limit != 0
  }

  /** The ceiling answered is never zero, and the cache never comes to hold a zero ceiling. */
  lemma LimitNeverZero(entries: map<Id, CacheEntry>, organizationId: Id, now: Millis, lookup: TenantLookup)
    requires NoZeroLimits(entries)
    ensures var (limit, after) := TenantLimit(entries, organizationId, now, lookup);
            limit != 0 && NoZeroLimits(after)
  {
  }

  /** `!req.user || req.user.isApiKey`: such requests go to `next()` without a tenant ceiling. */
  predicate SkipsTenantLimit(user: Option<RequestUser>) {
    user.None? || user.value.isApiKey
  }

  /** The module-level `tenantRateLimitCache`. */
  class TenantLimitCache {
    var entries: map<Id, CacheEntry>

    ghost predicate Valid()
      reads this
    {
      NoZeroLimits(entries)
    }

    constructor ()
      ensures Valid() && entries == map[]
    {
      entries := map[];
    }

    /** `getTenantLimit(organizationId)` at `now`, the organization lookup answering `lookup` if it is made. */
    method GetTenantLimit(organizationId: Id, now: Millis, lookup: TenantLookup) returns (limit: int)
      requires Valid()
      modifies this
      ensures Valid() && limit != 0
      ensures (limit, entries) == TenantLimit(old(entries), organizationId, now, lookup)
    {
      LimitNeverZero(entries, organizationId, now, lookup);
      if organizationId in entries {
        var cache := entries[organizationId];
        if now - cache.timestamp < TenantCacheTtl {
          return cache.limit;
        }
      }
      if lookup.LookupFails? {
        return DefaultLimit;
      }
      limit := ConfiguredLimit(lookup);
      entries := entries[organizationId := CacheEntry(limit, now)];
    }

    /**
     * `tenantRateLimiter`: no ceiling (`None`) for a request without a user
     * or with an API key, otherwise the tenant's ceiling for the limiter it
     * builds.
     */
    method TenantRateLimiter(user: Option<RequestUser>, now: Millis, lookup: TenantLookup) returns (max: Option<int>)
      requires Valid()
      modifies this
      ensures Valid()
      ensures SkipsTenantLimit(user) ==> max.None? && entries == old(entries)
      ensures !SkipsTenantLimit(user) ==>
                && max.Some?
                && (max.value, entries) == TenantLimit(old(entries), user.value.organizationId, now, lookup)
    {
      if user.None? || user.value.isApiKey {
        return None;
      }
      var limit := GetTenantLimit(user.value.organizationId, now, lookup);
      max := Some(limit);
    }
  }
}
