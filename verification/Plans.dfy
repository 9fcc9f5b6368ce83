/** The per-user plan cache (identity.go). Times are milliseconds. */
module Plans {
  import opened Text
  import opened Decimal
  import opened Keys

  const PLAN_CACHE_TTL := 30_000

  datatype Entry = Entry(plan: string, expiresAt: int)

  /** An answer of the rate-tier endpoint: who was asked about, the plan, and when it was stored. */
  datatype Answer = Answer(app: string, user: string, plan: string, at: int)

  class PlanResolver {
    var cache: map<string, Entry>
    ghost var answers: set<Answer>  // every answer ever stored

    /** Each cached plan was answered for the application and user that its key names. */
    ghost predicate Valid()
      reads this
    {
      && (forall a | a in answers :: AllDigits(a.user))
      && (forall k | k in cache :: exists a :: a in answers && Backs(a, k, cache[k]))
    }

    static ghost predicate Backs(a: Answer, key: string, e: Entry) {
      key == PlanCacheKey(a.app, a.user) && e == Entry(a.plan, a.at + PLAN_CACHE_TTL)
    }

    constructor ()
      ensures Valid() && cache == map[] && answers == {}
    {
      cache, answers := map[], {};
    }

    /** `fetched` is None on any failure, a status other than 200 or an empty plan name; `now` is
        read before the cache, `after` when an answer is stored. The plan is a fresh or an
        unexpired answer about this very user of this very application, or the default. */
    method Resolve(app: string, user: string, defaultPlan: string, now: int, fetched: Option<string>, after: int)
      returns (plan: string)
      requires Valid() && AllDigits(user)
      modifies this
      ensures Valid()
      ensures (cache == old(cache) && answers == old(answers) && exists a ::
                 a in answers && a.app == app && a.user == user && a.plan == plan && now < a.at + 30_000)
              || (fetched.Some? && plan == fetched.value
                  && answers == old(answers) + {Answer(app, user, plan, after)}
                  && cache == old(cache)[PlanCacheKey(app, user) := Entry(plan, after + 30_000)])
              || (fetched.None? && plan == defaultPlan && cache == old(cache) && answers == old(answers))
      ensures PlanCacheKey(app, user) in old(cache) && now < old(cache)[PlanCacheKey(app, user)].expiresAt ==>
                plan == old(cache)[PlanCacheKey(app, user)].plan
    {
      var key := PlanCacheKey(app, user);
      if key in cache && now < cache[key].expiresAt {
        ghost var a :| a in answers && Backs(a, key, cache[key]);
        PlanCacheKeyInjective(a.app, a.user, app, user);
        return cache[key].plan;
      }
      if fetched.None? {
        return defaultPlan;
      }
      plan := fetched.value;
      ghost var a := Answer(app, user, plan, after);
      cache := cache[key := Entry(plan, after + PLAN_CACHE_TTL)];
      answers := answers + {a};
      forall k | k in cache ensures exists b :: b in answers && Backs(b, k, cache[k]) {
        if k == key {
          assert Backs(a, k, cache[k]);
        } else {
          var b :| b in old(answers) && Backs(b, k, old(cache)[k]);
          assert b in answers;
        }
      }
    }
  }
}
