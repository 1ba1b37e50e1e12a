/** CacheService: the process-wide table of namespace relation configurations
    and the per-request memo of a user's high-cardinality tags. */
module Caching {
  import opened Domain

  /** A namespace's relation configuration. Only its namespace is interpreted
      here; `definition` stands for the rest of the message. */
  datatype AclRelationConfig = AclRelationConfig(namespace: string, definition: string)

  /** updateConfigs: drop every namespace the incoming map lacks (removeIf),
      then copy the incoming entries over (putAll). The result is the incoming
      map itself. */
  function Replaced(current: map<string, AclRelationConfig>, incoming: map<string, AclRelationConfig>)
    : (r: map<string, AclRelationConfig>)
    ensures r == incoming
  {
    var kept := map ns | ns in current && ns in incoming :: current[ns];
    kept + incoming
  }

  /** updateConfig: the entry for the config's namespace becomes the config;
      every other entry is unchanged. */
  function Upserted(current: map<string, AclRelationConfig>, config: AclRelationConfig)
    : (r: map<string, AclRelationConfig>)
    ensures config.namespace in r && r[config.namespace] == config
    ensures forall ns :: ns != config.namespace ==> Get(r, ns) == Get(current, ns)
  {
    current[config.namespace := config]
  }

  /** deleteConfig: only the given namespace disappears. */
  function Deleted(current: map<string, AclRelationConfig>, namespace: string)
    : (r: map<string, AclRelationConfig>)
    ensures namespace !in r
    ensures forall ns :: ns != namespace ==> Get(r, ns) == Get(current, ns)
    ensures namespace !in current ==> r == current
  {
    current - {namespace}
  }

  /** Replacing the table twice with the same map is replacing it once. */
  lemma ReplacedIdempotent(current: map<string, AclRelationConfig>, incoming: map<string, AclRelationConfig>)
    ensures Replaced(Replaced(current, incoming), incoming) == Replaced(current, incoming)
  {
  }

  /** The tags of the tuples a user holds directly. */
  function HighCardinalityTags(env: Env, user: string): (tags: set<string>) {
    set a | a in env.findAllByPrincipal(user) :: a.tag
  }

  /** prepareHighCardinalityCache on the memo's map: an existing entry and the
      wildcard user leave it alone; otherwise exactly one entry is added. */
  function Memoized(cache: HighCardinality, user: string, tags: set<string>): (r: HighCardinality)
    ensures r.Keys == if user == "*" then cache.Keys else cache.Keys + {user}
    ensures forall u :: u in cache ==> r[u] == cache[u]
    ensures user != "*" && user !in cache ==> r[user] == tags
  {
    if user in cache || user == "*" then cache else cache[user := tags]
  }

  /** A second call for the same user finds the memo and changes nothing. */
  lemma MemoizedIdempotent(cache: HighCardinality, user: string, tags: set<string>, again: set<string>)
    ensures Memoized(Memoized(cache, user, tags), user, again) == Memoized(cache, user, tags)
  {
  }

  /** Memoizing two different users gives the same map in either order. */
  lemma MemoizedCommutes(cache: HighCardinality, u: string, tu: set<string>, v: string, tv: set<string>)
    requires u != v
    ensures Memoized(Memoized(cache, u, tu), v, tv) == Memoized(Memoized(cache, v, tv), u, tu)
  {
  }

  /** The request-scoped memo (RequestCache). */
  class RequestCache {
    var principalHighCardinalityCache: HighCardinality

    constructor ()
      ensures principalHighCardinalityCache == map[]
    {
      principalHighCardinalityCache := map[];
    }
  }

  class CacheService {
    var configs: map<string, AclRelationConfig>
    /** The ACL repository as it stands now; ACL writes elsewhere replace it. */
    var env: Env
    /** The users whose tuples were looked up, in call order. */
    ghost var lookups: seq<string>

    constructor (env: Env)
      ensures configs == map[] && this.env == env && lookups == []
    {
      configs := map[];
      this.env := env;
      lookups := [];
    }

    /** ACL writes made through other services: later lookups see the new
        repository; the config table is untouched. */
    method AclsChanged(newEnv: Env)
      modifies this`env
      ensures env == newEnv
    {
      env := newEnv;
    }

    method UpdateConfigs(configMap: map<string, AclRelationConfig>)
      modifies this`configs
      ensures configs == Replaced(old(configs), configMap)
      ensures configs == configMap
    {
      configs := map ns | ns in configs && ns in configMap :: configs[ns];
      configs := configs + configMap;
    }

    method UpdateConfig(config: AclRelationConfig)
      modifies this`configs
      ensures configs == Upserted(old(configs), config)
    {
      configs := configs[config.namespace := config];
    }

    method DeleteConfig(namespace: string)
      modifies this`configs
      ensures configs == Deleted(old(configs), namespace)
    {
      configs := configs - {namespace};
    }

    method GetConfigs() returns (r: map<string, AclRelationConfig>)
      ensures r == configs
    {
      r := configs;
    }

    /** Fills the memo for `user` with the tags of the tuples the user holds,
        unless it is already there or `user` is the wildcard; only then is the
        repository asked. */
    method PrepareHighCardinalityCache(requestCache: RequestCache, user: string)
      modifies requestCache, this`lookups
      ensures requestCache.principalHighCardinalityCache
           == Memoized(old(requestCache.principalHighCardinalityCache), user, HighCardinalityTags(env, user))
      ensures lookups == if user in old(requestCache.principalHighCardinalityCache) || user == "*"
                         then old(lookups) else old(lookups) + [user]
    {
      if user in requestCache.principalHighCardinalityCache || user == "*" {
        return;
      }
      var acls := env.findAllByPrincipal(user);
      lookups := lookups + [user];
      var highCardinalityRelations := set a | a in acls :: a.tag;
      requestCache.principalHighCardinalityCache := requestCache.principalHighCardinalityCache[user := highCardinalityRelations];
    }
  }
}
