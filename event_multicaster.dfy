/**
 * AbstractApplicationEventMulticaster: the listener registry (DefaultListenerRetriever),
 * the per-(event type, source type) cache of pre-filtered listeners
 * (CachedListenerRetriever), and the lookup that fills it. The methods are proved to
 * compute the functions of ListenerRetrieval over the current registry.
 */
module EventMulticaster {
  import opened Wrappers
  import opened JavaTypes
  import opened Seqs
  import opened Ordering
  import opened ListenerMatching
  import opened ListenerCacheKeys
  import opened ListenerRetrieval
  import opened ListenerRetrievalProofs
  import opened RetrievalLoops

  /** One cache entry; both fields stay absent until a lookup has populated it. */
  class CachedListenerRetriever {
    var applicationListeners: Option<seq<Listener>>
    var applicationListenerBeans: Option<seq<string>>

    constructor ()
      ensures applicationListeners == None && applicationListenerBeans == None
    {
      applicationListeners := None;
      applicationListenerBeans := None;
    }

    predicate Populated()
      reads this
    {
      applicationListeners.Some? && applicationListenerBeans.Some?
    }

    /**
     * None while not fully populated; otherwise the cached listeners followed by a fresh
     * instance of every cached bean name, sorted when there are names.
     */
    method GetApplicationListeners(ts: TypeSystem, bf: Option<BeanFactory>) returns (r: Option<Result<seq<Listener>, Failure>>)
      ensures !Populated() ==> r == None
      ensures Populated() ==> r == Some(CachedRead(ts, bf, applicationListeners.value, applicationListenerBeans.value))
    {
      if applicationListeners.None? || applicationListenerBeans.None? {
        return None;
      }
      var listeners, beans := applicationListeners.value, applicationListenerBeans.value;
      var all := listeners;
      if beans != [] {
        if bf.None? {
          return Some(Failure(NoBeanFactory));
        }
        var factory := bf.value;
        var i := 0;
        while i < |beans|
          invariant 0 <= i <= |beans|
          invariant ResolveBeans(factory, listeners, beans[..i], false) == Success(all)
        {
          var name := beans[i];
          assert beans[..i + 1][..i] == beans[..i];
          match factory.getBean(name) {
            case NoSuchBean =>
            case CreationFailure =>
              ResolveBeansFailureExtends(factory, listeners, beans, false, i + 1);
              return Some(Failure(BeanCreationFailed(name)));
            case Bean(l) =>
              all := all + [l];
          }
          i := i + 1;
        }
        assert beans[..i] == beans;
        all := SortByOrder(all, ts.order);
      }
      return Some(Success(all));
    }
  }

  /** The registry: listener instances and listener bean names, each without duplicates, in registration order. */
  class DefaultListenerRetriever {
    var applicationListeners: seq<Listener>
    var applicationListenerBeans: seq<string>

    ghost predicate Valid()
      reads this
    {
      NoDups(applicationListeners) && NoDups(applicationListenerBeans)
    }

    constructor ()
      ensures Valid() && applicationListeners == [] && applicationListenerBeans == []
    {
      applicationListeners := [];
      applicationListenerBeans := [];
    }

    /** Every registered instance, then every resolvable named instance not already present, sorted. */
    method GetApplicationListeners(ts: TypeSystem, bf: Option<BeanFactory>) returns (r: Result<seq<Listener>, Failure>)
      ensures r == AllListeners(ts, bf, applicationListeners, applicationListenerBeans)
    {
      var listeners, beans := applicationListeners, applicationListenerBeans;
      var all := listeners;
      if beans != [] {
        if bf.None? {
          return Failure(NoBeanFactory);
        }
        var factory := bf.value;
        var i := 0;
        while i < |beans|
          invariant 0 <= i <= |beans|
          invariant ResolveBeans(factory, listeners, beans[..i], true) == Success(all)
        {
          var name := beans[i];
          assert beans[..i + 1][..i] == beans[..i];
          match factory.getBean(name) {
            case NoSuchBean =>
            case CreationFailure =>
              ResolveBeansFailureExtends(factory, listeners, beans, true, i + 1);
              return Failure(BeanCreationFailed(name));
            case Bean(l) =>
              if l !in all {
                all := all + [l];
              }
          }
          i := i + 1;
        }
        assert beans[..i] == beans;
      }
      return Success(SortByOrder(all, ts.order));
    }
  }

  /**
   * The multicaster's state. The bean class loader and bean factory are fixed at
   * construction; the registry changes only through the mutators, each of which clears
   * the cache.
   */
  class ApplicationEventMulticaster {
    const defaultRetriever: DefaultListenerRetriever
    var retrieverCache: map<ListenerCacheKey, CachedListenerRetriever>
    const types: TypeSystem
    const beanClassLoader: Option<ClassLoader>
    const beanFactory: Option<BeanFactory>

    /** The registry, without duplicates, and every populated cache entry agrees with a fresh owned lookup for its key. */
    ghost predicate Valid()
      reads this, defaultRetriever, retrieverCache.Values
    {
      defaultRetriever.Valid() && CacheCoherent()
    }

    ghost predicate CacheCoherent()
      reads this, defaultRetriever, retrieverCache.Values
    {
      forall key :: key in retrieverCache && retrieverCache[key].Populated() ==>
        EntryMatches(retrieverCache[key], Retrieve(types, beanFactory, defaultRetriever.applicationListeners,
                                                   defaultRetriever.applicationListenerBeans, key.eventType, key.sourceType, true))
    }

    ghost predicate EntryMatches(retriever: CachedListenerRetriever, lookup: Result<Retrieved, Failure>)
      reads retriever
    {
      lookup.Success? &&
      retriever.applicationListeners == Some(lookup.value.cachedListeners) &&
      retriever.applicationListenerBeans == Some(lookup.value.cachedBeans)
    }

    /** The lookup for a key over the current registry. */
    function Lookup(key: ListenerCacheKey, owned: bool): Result<Retrieved, Failure>
      reads this, defaultRetriever
    {
      Retrieve(types, beanFactory, defaultRetriever.applicationListeners, defaultRetriever.applicationListenerBeans,
               key.eventType, key.sourceType, owned)
    }

    /**
     * A multicaster after setBeanClassLoader and setBeanFactory: the factory's class loader
     * (which may itself be null) stands in when none was set.
     */
    constructor (types: TypeSystem, classLoader: Option<ClassLoader>, beanFactory: Option<BeanFactory>)
      ensures Valid()
      ensures defaultRetriever.applicationListeners == [] && defaultRetriever.applicationListenerBeans == []
      ensures retrieverCache == map[]
      ensures this.types == types && this.beanFactory == beanFactory
      ensures beanClassLoader == if classLoader.None? && beanFactory.Some? then beanFactory.value.beanClassLoader else classLoader
    {
      defaultRetriever := new DefaultListenerRetriever();
      retrieverCache := map[];
      this.types := types;
      this.beanFactory := beanFactory;
      beanClassLoader := if classLoader.None? && beanFactory.Some? then beanFactory.value.beanClassLoader else classLoader;
    }

    /**
     * Register a listener: a proxied singleton's target is unregistered first; a listener
     * already registered keeps its position.
     */
    method AddApplicationListener(listener: Listener)
      requires Valid()
      modifies this, defaultRetriever
      ensures Valid()
      ensures defaultRetriever.applicationListeners ==
        SetAdd(match types.singletonTarget(listener)
               case Some(target) => Remove(old(defaultRetriever.applicationListeners), target)
               case None => old(defaultRetriever.applicationListeners), listener)
      ensures defaultRetriever.applicationListenerBeans == old(defaultRetriever.applicationListenerBeans)
      ensures retrieverCache == map[]
      ensures listener in defaultRetriever.applicationListeners
      ensures forall target :: types.singletonTarget(listener) == Some(target) && target != listener ==>
                target !in defaultRetriever.applicationListeners
    {
      var listeners := defaultRetriever.applicationListeners;
      match types.singletonTarget(listener) {
        case Some(target) => listeners := Remove(listeners, target);
        case None =>
      }
      defaultRetriever.applicationListeners := SetAdd(listeners, listener);
      retrieverCache := map[];
    }

    method AddApplicationListenerBean(listenerBeanName: string)
      requires Valid()
      modifies this, defaultRetriever
      ensures Valid()
      ensures defaultRetriever.applicationListenerBeans == SetAdd(old(defaultRetriever.applicationListenerBeans), listenerBeanName)
      ensures defaultRetriever.applicationListeners == old(defaultRetriever.applicationListeners)
      ensures retrieverCache == map[]
    {
      defaultRetriever.applicationListenerBeans := SetAdd(defaultRetriever.applicationListenerBeans, listenerBeanName);
      retrieverCache := map[];
    }

    method RemoveApplicationListener(listener: Listener)
      requires Valid()
      modifies this, defaultRetriever
      ensures Valid()
      ensures defaultRetriever.applicationListeners == Remove(old(defaultRetriever.applicationListeners), listener)
      ensures listener !in defaultRetriever.applicationListeners
      ensures defaultRetriever.applicationListenerBeans == old(defaultRetriever.applicationListenerBeans)
      ensures retrieverCache == map[]
    {
      defaultRetriever.applicationListeners := Remove(defaultRetriever.applicationListeners, listener);
      retrieverCache := map[];
    }

    method RemoveApplicationListenerBean(listenerBeanName: string)
      requires Valid()
      modifies this, defaultRetriever
      ensures Valid()
      ensures defaultRetriever.applicationListenerBeans == Remove(old(defaultRetriever.applicationListenerBeans), listenerBeanName)
      ensures listenerBeanName !in defaultRetriever.applicationListenerBeans
      ensures defaultRetriever.applicationListeners == old(defaultRetriever.applicationListeners)
      ensures retrieverCache == map[]
    {
      defaultRetriever.applicationListenerBeans := Remove(defaultRetriever.applicationListenerBeans, listenerBeanName);
      retrieverCache := map[];
    }

    method RemoveApplicationListeners(predicate_: Listener -> bool)
      requires Valid()
      modifies this, defaultRetriever
      ensures Valid()
      ensures defaultRetriever.applicationListeners == RemoveIf(old(defaultRetriever.applicationListeners), predicate_)
      ensures forall l :: l in defaultRetriever.applicationListeners <==> l in old(defaultRetriever.applicationListeners) && !predicate_(l)
      ensures defaultRetriever.applicationListenerBeans == old(defaultRetriever.applicationListenerBeans)
      ensures retrieverCache == map[]
    {
      defaultRetriever.applicationListeners := RemoveIf(defaultRetriever.applicationListeners, predicate_);
      retrieverCache := map[];
    }

    method RemoveApplicationListenerBeans(predicate_: string -> bool)
      requires Valid()
      modifies this, defaultRetriever
      ensures Valid()
      ensures defaultRetriever.applicationListenerBeans == RemoveIf(old(defaultRetriever.applicationListenerBeans), predicate_)
      ensures forall n :: n in defaultRetriever.applicationListenerBeans <==> n in old(defaultRetriever.applicationListenerBeans) && !predicate_(n)
      ensures defaultRetriever.applicationListeners == old(defaultRetriever.applicationListeners)
      ensures retrieverCache == map[]
    {
      defaultRetriever.applicationListenerBeans := RemoveIf(defaultRetriever.applicationListenerBeans, predicate_);
      retrieverCache := map[];
    }

    method RemoveAllListeners()
      requires Valid()
      modifies this, defaultRetriever
      ensures Valid()
      ensures defaultRetriever.applicationListeners == [] && defaultRetriever.applicationListenerBeans == []
      ensures retrieverCache == map[]
    {
      defaultRetriever.applicationListeners := [];
      defaultRetriever.applicationListenerBeans := [];
      retrieverCache := map[];
    }

    /** Every registered listener, resolved and sorted, with no event filtering. */
    method GetAllApplicationListeners() returns (r: Result<seq<Listener>, Failure>)
      requires Valid()
      ensures r == AllListeners(types, beanFactory, defaultRetriever.applicationListeners, defaultRetriever.applicationListenerBeans)
      ensures r.Success? ==> NoDups(r.value) && SortedBy(r.value, types.order) &&
                             forall l :: l in defaultRetriever.applicationListeners ==> l in r.value
    {
      r := defaultRetriever.GetApplicationListeners(types, beanFactory);
      if r.Success? {
        AllListenersSound(types, beanFactory, defaultRetriever.applicationListeners, defaultRetriever.applicationListenerBeans);
      }
    }

    /** Whether a cache entry may be created for an event of this class from a source of this class. */
    function CacheSafe(eventClass: Class, sourceType: Option<Class>): (r: bool)
      // without a bean class loader every type is cacheable
      ensures beanClassLoader.None? ==> r
      // otherwise the event class, and the source class when there is one, must be cache-safe for that loader
      ensures beanClassLoader.Some? ==>
        (r <==> types.isCacheSafe(eventClass, beanClassLoader.value) &&
                (sourceType.Some? ==> types.isCacheSafe(sourceType.value, beanClassLoader.value)))
    {
      beanClassLoader.None? ||
      (types.isCacheSafe(eventClass, beanClassLoader.value) &&
       (sourceType.None? || types.isCacheSafe(sourceType.value, beanClassLoader.value)))
    }

    /**
     * The listeners for an event of class eventClass with the given resolved type, whose
     * source has class sourceType (None for a null source). A populated entry is read; a
     * missing one is created (when cache-safe) and populated by the lookup; an entry that
     * exists but was never populated makes the lookup run without populating anything.
     */
    method GetApplicationListeners(eventClass: Class, sourceType: Option<Class>, eventType: ResolvableType)
      returns (r: Result<seq<Listener>, Failure>)
      requires Valid()
      modifies this
      ensures Valid()
      // no entry that was already cached is altered; only a freshly created retriever is filled
      ensures forall k :: k in old(retrieverCache) ==> unchanged(old(retrieverCache)[k])
      ensures unchanged(defaultRetriever)
      // a populated entry answers the lookup
      ensures var key := ListenerCacheKey(eventType, sourceType);
        key in old(retrieverCache) && old(retrieverCache[key].Populated()) ==>
          retrieverCache == old(retrieverCache) &&
          r == CachedRead(types, beanFactory, old(retrieverCache[key].applicationListeners.value),
                          old(retrieverCache[key].applicationListenerBeans.value))
      // an unpopulated entry: the lookup runs without a retriever and nothing is cached
      ensures var key := ListenerCacheKey(eventType, sourceType);
        key in old(retrieverCache) && !old(retrieverCache[key].Populated()) ==>
          retrieverCache == old(retrieverCache) && r == Listing(Lookup(key, false))
      // a miss that may not be cached
      ensures var key := ListenerCacheKey(eventType, sourceType);
        key !in old(retrieverCache) && !CacheSafe(eventClass, sourceType) ==>
          retrieverCache == old(retrieverCache) && r == Listing(Lookup(key, false))
      // a cache-safe miss: a new entry is stored, populated when the lookup succeeds
      ensures var key := ListenerCacheKey(eventType, sourceType);
        key !in old(retrieverCache) && CacheSafe(eventClass, sourceType) ==>
          key in retrieverCache && fresh(retrieverCache[key]) &&
          retrieverCache == old(retrieverCache)[key := retrieverCache[key]] &&
          r == Listing(Lookup(key, true)) &&
          (r.Success? <==> retrieverCache[key].Populated())
      // whichever path is taken, a successful answer holds only registered listeners that pass the full check
      ensures r.Success? ==> forall l :: l in r.value ==>
        Admissible(types, beanFactory, defaultRetriever.applicationListeners, defaultRetriever.applicationListenerBeans,
                   eventType, sourceType, l)
    {
      var key := ListenerCacheKey(eventType, sourceType);
      var newRetriever: CachedListenerRetriever? := null;
      var existing: CachedListenerRetriever? := if key in retrieverCache then retrieverCache[key] else null;
      if existing == null && CacheSafe(eventClass, sourceType) {
        newRetriever := new CachedListenerRetriever();
        // putIfAbsent: with no concurrent caller the key is still absent here
        retrieverCache := retrieverCache[key := newRetriever];
      }
      if existing != null {
        var result := existing.GetApplicationListeners(types, beanFactory);
        if result.Some? {
          CachedReadSound(types, beanFactory, defaultRetriever.applicationListeners, defaultRetriever.applicationListenerBeans,
                          eventType, sourceType);
          return result.value;
        }
      }
      r := RetrieveApplicationListeners(eventType, sourceType, newRetriever);
      RetrieveSoundOnSuccess(key, newRetriever != null, r);
    }

    lemma RetrieveSoundOnSuccess(key: ListenerCacheKey, owned: bool, r: Result<seq<Listener>, Failure>)
      requires defaultRetriever.Valid()
      requires r == Listing(Lookup(key, owned))
      ensures r.Success? ==> forall l :: l in r.value ==>
        Admissible(types, beanFactory, defaultRetriever.applicationListeners, defaultRetriever.applicationListenerBeans,
                   key.eventType, key.sourceType, l)
    {
      if r.Success? {
        RetrieveSound(types, beanFactory, defaultRetriever.applicationListeners, defaultRetriever.applicationListenerBeans,
                      key.eventType, key.sourceType, owned);
      }
    }

    /**
     * retrieveApplicationListeners: filter the registered instances, then resolve and
     * filter the registered names, sort, and populate the retriever if one is given.
     */
    method RetrieveApplicationListeners(eventType: ResolvableType, sourceType: Option<Class>, retriever: CachedListenerRetriever?)
      returns (r: Result<seq<Listener>, Failure>)
      requires defaultRetriever.Valid()
      modifies retriever
      ensures r == Listing(Lookup(ListenerCacheKey(eventType, sourceType), retriever != null))
      ensures retriever != null && r.Success? ==>
        EntryMatches(retriever, Lookup(ListenerCacheKey(eventType, sourceType), true))
      ensures retriever != null && r.Failure? ==> unchanged(retriever)
    {
      var owned := retriever != null;
      var listeners := Distinct(defaultRetriever.applicationListeners);
      var listenerBeans := Distinct(defaultRetriever.applicationListenerBeans);
      var c := CollectListeners(eventType, sourceType, owned, listeners);
      if listenerBeans != [] {
        if beanFactory.None? {
          return Failure(NoBeanFactory);
        }
        var collected := CollectListenerBeans(beanFactory.value, eventType, sourceType, owned, c, listenerBeans);
        if collected.Failure? {
          return Failure(collected.error);
        }
        c := collected.value;
      }
      var sorted := SortByOrder(c.all, types.order);
      if retriever != null {
        if c.filteredBeans == [] {
          retriever.applicationListeners := Some(Distinct(sorted));
          retriever.applicationListenerBeans := Some(c.filteredBeans);
        } else {
          retriever.applicationListeners := Some(c.filtered);
          retriever.applicationListenerBeans := Some(c.filteredBeans);
        }
      }
      return Success(sorted);
    }

    /** The loop over registered instances. */
    method CollectListeners(eventType: ResolvableType, sourceType: Option<Class>, owned: bool, listeners: seq<Listener>)
      returns (c: Collected)
      ensures c == DirectPass(types, eventType, sourceType, owned, listeners)
    {
      var all: seq<Listener> := [];
      var filtered: seq<Listener> := [];
      var i := 0;
      while i < |listeners|
        invariant 0 <= i <= |listeners|
        invariant Collected(all, filtered, []) == DirectPass(types, eventType, sourceType, owned, listeners[..i])
      {
        var listener := listeners[i];
        assert listeners[..i + 1] == listeners[..i] + [listener];
        if SupportsEvent(types, listener, eventType, sourceType) {
          if owned {
            filtered := SetAdd(filtered, listener);
          }
          all := all + [listener];
        }
        i := i + 1;
      }
      assert listeners[..i] == listeners;
      return Collected(all, filtered, []);
    }

    /** The loop over registered bean names; a bean that cannot be created ends it. */
    method CollectListenerBeans(bf: BeanFactory, eventType: ResolvableType, sourceType: Option<Class>, owned: bool,
                                c0: Collected, listenerBeans: seq<string>)
      returns (r: Result<Collected, Failure>)
      ensures r == BeanPass(types, bf, eventType, sourceType, owned, c0, listenerBeans)
    {
      var c := c0;
      var j := 0;
      while j < |listenerBeans|
        invariant 0 <= j <= |listenerBeans|
        invariant BeanPass(types, bf, eventType, sourceType, owned, c0, listenerBeans[..j]) == Success(c)
      {
        var name := listenerBeans[j];
        assert listenerBeans[..j + 1][..j] == listenerBeans[..j];
        var step := CollectListenerBean(bf, eventType, sourceType, owned, c, name);
        if step.Failure? {
          BeanPassFailureExtends(types, bf, eventType, sourceType, owned, c0, listenerBeans, j + 1);
          return step;
        }
        c := step.value;
        j := j + 1;
      }
      assert listenerBeans[..j] == listenerBeans;
      return Success(c);
    }

    /** One iteration over a bean name, with the catch of NoSuchBeanDefinitionException. */
    method CollectListenerBean(bf: BeanFactory, eventType: ResolvableType, sourceType: Option<Class>, owned: bool,
                               c: Collected, name: string)
      returns (r: Result<Collected, Failure>)
      ensures r == BeanStep(types, bf, eventType, sourceType, owned, c, name)
    {
      var all, filtered, filteredBeans := c.all, c.filtered, c.filteredBeans;
      match PreCheck(types, bf, name, eventType) {
        case NoSuchBeanDefinition =>
        case Found(true) =>
          match bf.getBean(name) {
            case NoSuchBean =>
            case CreationFailure =>
              return Failure(BeanCreationFailed(name));
            case Bean(listener) =>
              if listener !in all && SupportsEvent(types, listener, eventType, sourceType) {
                if owned {
                  match bf.isSingleton(name) {
                    case NoSuchBeanDefinition =>
                    case Found(true) =>
                      filtered := SetAdd(filtered, listener);
                      all := all + [listener];
                    case Found(false) =>
                      filteredBeans := SetAdd(filteredBeans, name);
                      all := all + [listener];
                  }
                } else {
                  all := all + [listener];
                }
              }
          }
        case Found(false) =>
          var singleton := bf.getSingleton(name);
          if singleton.Some? {
            if owned {
              filtered := Remove(filtered, singleton.value);
            }
            all := RemoveFirst(all, singleton.value);
          }
      }
      return Success(Collected(all, filtered, filteredBeans));
    }
  }
}
