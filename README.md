# Spring event listener retrieval and factory loading, in Dafny

This project models two pieces of the Spring Framework core.

**AbstractApplicationEventMulticaster** (spring-context). This class keeps the
registry of application listeners. A listener is registered either as an
instance or as a bean name. For each (event type, source type) pair the class
works out which listeners receive an event, sorts them by order, and caches the
result in a `CachedListenerRetriever`. Only singleton listeners are cached as
instances. Prototype listener beans are cached by name and resolved again on
every read.

**SpringFactoriesLoader** (spring-core). This class reads every
`META-INF/spring.factories` resource visible to a class loader. It merges the
comma-separated implementation names under each factory type name, trimmed and
without duplicates, and caches the table per class loader. `loadFactories` then
instantiates the names and sorts the instances by order.

Module layout:

- `Wrappers`: `Option` and `Result`.
- `Seqs`: the Java collection operations the source uses, on duplicate-free
  sequences. `LinkedHashSet.add` is `SetAdd` and `remove` is `Remove`.
  `removeIf` is `RemoveIf`. `ArrayList.remove(Object)` is `RemoveFirst`.
  `new LinkedHashSet<>(list)` and `Stream.distinct` are `Distinct`.
- `Ordering`: `AnnotationAwareOrderComparator.sort` is a stable sort by an
  integer order key (`SortByOrder`). Java's `List.sort` is stable too.
- `JavaTypes`: class loaders, classes (a name and a defining loader), resolved
  types, `int` wrap-around and `String.compareTo`.
- `ListenerCacheKeys`: `ListenerCacheKey`, with its `equals`, `hashCode` and
  `compareTo`.
- `ListenerMatching`: the three `supportsEvent` checks. The generic-type
  introspection and the bean factory they consult are given as oracles, the
  `TypeSystem` and `BeanFactory` records of functions.
- `ListenerRetrieval`, `ListenerRetrievalProofs`, `CachedReadOrder` and
  `RetrievalLoops`: `retrieveApplicationListeners` and the two retrievers'
  reads, written as functions over a snapshot of the registry. The lemmas say
  what these functions deliver.
- `EventMulticaster`: the three classes. Their fields are updated in place.
  Each method is proved to compute the functions above. The class invariant
  `Valid` says that the registry holds no duplicates. It also says that every
  populated cache entry equals what a lookup over the current registry would
  store.
- `FactoryNames`: `String.trim`, `commaDelimitedListToStringArray` and the
  merge of resources into the factory table, with its lemmas.
- `SpringFactories`: the `SpringFactoriesLoader` class, with a per-class-loader
  cache field.

Behaviour of the code that the model keeps, which a reader might not expect:

- **Re-adding a listener.** Adding a listener that is already registered keeps
  its original position. The registry is a `LinkedHashSet`, whose `add` does
  nothing for an element already present.
- **Cache safety.** It is checked only before a new entry is created. An entry
  that already exists is read whatever the event and source classes are
  (lines 207-213).
- **Failed lookups.** A lookup that fails leaves its freshly inserted entry
  unpopulated. Every later lookup for that key then runs without populating
  anything.

Further behaviour the model keeps:

- **Cache reads and equal orders.** A cache read appends the prototype
  listeners after the cached instances and sorts again. Listeners with equal
  order can therefore come out in a different order than on the lookup that
  populated the entry. `CachedReadSameListeners` proves that the read returns
  the same listeners. `CachedReadReordersTies` shows the reordering on three
  listeners.
- **`isSingleton` failures.** A lookup that populates an entry calls
  `isSingleton`. If that call throws `NoSuchBeanDefinitionException`, the bean
  is skipped.

## Model

Source paths are relative to the repository root.

| member | source | states |
|---|---|---|
| Seqs.SetAdd | spring-context/src/main/java/org/springframework/context/event/AbstractApplicationEventMulticaster.java:116 | LinkedHashSet.add: the element is present afterwards. Nothing else is added or lost. An element already present leaves the set unchanged, and a new one is appended at the end. A duplicate-free set stays duplicate-free. |
| Seqs.Remove | spring-context/src/main/java/org/springframework/context/event/AbstractApplicationEventMulticaster.java:130-135 | LinkedHashSet.remove: exactly the element is gone, everything else stays, and no duplicates appear. |
| Seqs.RemoveIf | spring-context/src/main/java/org/springframework/context/event/AbstractApplicationEventMulticaster.java:146-151 | removeIf: keeps exactly the elements the predicate rejects. |
| Seqs.RemoveFirst | spring-context/src/main/java/org/springframework/context/event/AbstractApplicationEventMulticaster.java:316-320 | ArrayList.remove(Object): an absent element changes nothing. Otherwise exactly one occurrence is removed, as a multiset difference. |
| Seqs.RemoveFirstNoDups | spring-context/src/main/java/org/springframework/context/event/AbstractApplicationEventMulticaster.java:318-320 | On a duplicate-free list, ArrayList.remove agrees with LinkedHashSet.remove. |
| Seqs.Distinct | spring-core/src/main/java/org/springframework/core/io/support/SpringFactoriesLoader.java:201-202 | Stream.distinct: the same elements with no duplicates. An input without duplicates is returned unchanged. |
| Seqs.DistinctFirstOccurrenceOrder | spring-core/src/main/java/org/springframework/core/io/support/SpringFactoriesLoader.java:201-202 | distinct keeps first occurrences in their original relative order. |
| Ordering.SortByOrder | spring-context/src/main/java/org/springframework/context/event/AbstractApplicationEventMulticaster.java:331 | The sort yields a permutation of its input, sorted by order. |
| Ordering.SortByOrderStable | spring-context/src/main/java/org/springframework/context/event/AbstractApplicationEventMulticaster.java:331 | The sort is stable: elements of equal order keep their relative order. |
| Ordering.SortByOrderSorted | spring-context/src/main/java/org/springframework/context/event/AbstractApplicationEventMulticaster.java:523 | Sorting an already sorted list returns it unchanged. |
| Ordering.SortByOrderNoDups | spring-context/src/main/java/org/springframework/context/event/AbstractApplicationEventMulticaster.java:559 | Sorting a duplicate-free list keeps it duplicate-free. |
| JavaTypes.WrapInt32 | spring-context/src/main/java/org/springframework/context/event/AbstractApplicationEventMulticaster.java:459-461 | Java int arithmetic: the result is congruent to the exact value modulo 2^32, and equals it when it fits in an int. |
| JavaTypes.StringCompareToZero | spring-context/src/main/java/org/springframework/context/event/AbstractApplicationEventMulticaster.java:470 | String.compareTo is 0 exactly for equal strings. |
| JavaTypes.StringCompareToAntisymmetric | spring-context/src/main/java/org/springframework/context/event/AbstractApplicationEventMulticaster.java:470 | String.compareTo(a, b) is the negation of compareTo(b, a). |
| JavaTypes.StringCompareToTransitive | spring-context/src/main/java/org/springframework/context/event/AbstractApplicationEventMulticaster.java:470 | String.compareTo's "less than" is transitive. |
| ListenerCacheKeys.Equals | spring-context/src/main/java/org/springframework/context/event/AbstractApplicationEventMulticaster.java:446-456 | Two keys are equal exactly when their event types are equal and their source types are the same class or both null. |
| ListenerCacheKeys.HashCode | spring-context/src/main/java/org/springframework/context/event/AbstractApplicationEventMulticaster.java:459-461 | hashCode is eventType.hashCode() * 29 + nullSafeHashCode(sourceType), with int wrap-around. |
| ListenerCacheKeys.EqualsImpliesSameHashCode | spring-context/src/main/java/org/springframework/context/event/AbstractApplicationEventMulticaster.java:446-461 | equals and hashCode agree: equal keys have equal hash codes. |
| ListenerCacheKeys.CompareSourceTypes | spring-context/src/main/java/org/springframework/context/event/AbstractApplicationEventMulticaster.java:472-477 | A null source type sorts before any class. Two null source types compare equal. Two classes compare by their names' String.compareTo. |
| ListenerCacheKeys.CompareTo | spring-context/src/main/java/org/springframework/context/event/AbstractApplicationEventMulticaster.java:469-481 | Keys compare by the event type's string first. On a tie they compare by source type: a null source type sorts first, and two classes compare by name. |
| ListenerCacheKeys.CompareSourceTypesAntisymmetric | spring-context/src/main/java/org/springframework/context/event/AbstractApplicationEventMulticaster.java:472-478 | Source-type comparison is antisymmetric. |
| ListenerCacheKeys.CompareToAntisymmetric | spring-context/src/main/java/org/springframework/context/event/AbstractApplicationEventMulticaster.java:469-481 | compareTo(a, b) is the negation of compareTo(b, a), as Comparable requires. |
| ListenerCacheKeys.CompareToZero | spring-context/src/main/java/org/springframework/context/event/AbstractApplicationEventMulticaster.java:469-481 | compareTo is 0 exactly when the event type strings are equal and the source types are both null or have the same class name. |
| ListenerCacheKeys.EqualsImpliesCompareToZero | spring-context/src/main/java/org/springframework/context/event/AbstractApplicationEventMulticaster.java:446-481 | compareTo is consistent with equals in one direction: equal keys compare as 0. |
| ListenerCacheKeys.CompareToTransitive | spring-context/src/main/java/org/springframework/context/event/AbstractApplicationEventMulticaster.java:469-481 | compareTo's "less than" is transitive. |
| ListenerMatching.SupportsDeclaredEventType | spring-context/src/main/java/org/springframework/context/event/AbstractApplicationEventMulticaster.java:396-399 | A listener class whose declared event type cannot be resolved passes. Otherwise it fails exactly when the declared type is not assignable from the event type. |
| ListenerMatching.PreCheck | spring-context/src/main/java/org/springframework/context/event/AbstractApplicationEventMulticaster.java:363-383 | The pre-check by bean name. An unknown bean definition surfaces as NoSuchBeanDefinition. An undeterminable type, and a Generic or Smart listener type, pass. A bean without a merged definition is judged by its class alone. The check fails exactly for a plain listener class whose declared or generic event type excludes the event. |
| ListenerMatching.SupportsEvent | spring-context/src/main/java/org/springframework/context/event/AbstractApplicationEventMulticaster.java:416-425 | A GenericApplicationListener is asked directly; any other listener is judged by the adapter. Either way, both the event type and the source type must be supported. |
| ListenerRetrieval.DirectPass | spring-context/src/main/java/org/springframework/context/event/AbstractApplicationEventMulticaster.java:283-293 | The loop over registered instances keeps exactly the registered listeners that support the event and source type. It adds no duplicates. It fills the filtered set only when an entry is being populated. |
| ListenerRetrieval.BeanStep | spring-context/src/main/java/org/springframework/context/event/AbstractApplicationEventMulticaster.java:298-325 | One bean name. A failed bean creation, after a passing pre-check, is the only failure. A failing pre-check removes the name's singleton from the result. When populating, a new supporting instance is added. It is routed to the cached instances if the bean is a singleton, and to the cached names otherwise. |
| ListenerRetrieval.BeanPass | spring-context/src/main/java/org/springframework/context/event/AbstractApplicationEventMulticaster.java:296-327 | The loop over bean names fails exactly when some name passes the pre-check and its bean cannot be created. The failure names such a bean. |
| ListenerRetrieval.Finish | spring-context/src/main/java/org/springframework/context/event/AbstractApplicationEventMulticaster.java:331-344 | The collected listeners are sorted by order, as a permutation. The cached names are the filtered names. With filtered names, the filtered instances are cached; without them, a duplicate-free sorted list is cached as is. |
| ListenerRetrieval.Retrieve | spring-context/src/main/java/org/springframework/context/event/AbstractApplicationEventMulticaster.java:247-347 | The lookup fails exactly when there are bean names and either no bean factory, or a name that passes the pre-check and whose bean cannot be created. Without a bean factory the failure is NoBeanFactory. A result is sorted by order. |
| ListenerRetrieval.ResolveBeans | spring-context/src/main/java/org/springframework/context/event/AbstractApplicationEventMulticaster.java:510-521 | Resolving names fails exactly when some bean's creation fails. Otherwise it extends the given list with every resolvable bean and nothing else. In the skip-contained variant it adds no duplicates. |
| ListenerRetrieval.CachedRead | spring-context/src/main/java/org/springframework/context/event/AbstractApplicationEventMulticaster.java:499-526 | A cached read fails exactly when there are cached names and either no bean factory or a bean that cannot be created. It returns every cached instance and every bean the names resolve to, and nothing else. It re-sorts only when names were resolved. |
| ListenerRetrieval.AllListeners | spring-context/src/main/java/org/springframework/context/event/AbstractApplicationEventMulticaster.java:539-561 | The unfiltered listing fails exactly when there are bean names and either no bean factory or a bean that cannot be created. A result is sorted and contains every registered instance. |
| ListenerRetrievalProofs.DirectPassOk | spring-context/src/main/java/org/springframework/context/event/AbstractApplicationEventMulticaster.java:283-293 | After the instance loop the lookup's invariant holds: no duplicates, only admissible listeners, and filtered entries included in the result. |
| ListenerRetrievalProofs.BeanStepOk | spring-context/src/main/java/org/springframework/context/event/AbstractApplicationEventMulticaster.java:298-325 | One bean name preserves that invariant. |
| ListenerRetrievalProofs.BeanPassOk | spring-context/src/main/java/org/springframework/context/event/AbstractApplicationEventMulticaster.java:296-327 | The whole bean loop preserves that invariant. |
| ListenerRetrievalProofs.RetrieveSound | spring-context/src/main/java/org/springframework/context/event/AbstractApplicationEventMulticaster.java:247-347 | A successful lookup returns a duplicate-free, order-sorted list of admissible listeners. Admissible means supporting the event and registered directly or by bean name. The cached names are non-singleton beans that support the event. With no cached names, the cached instances are the returned list. |
| ListenerRetrievalProofs.BeanStepKeeps | spring-context/src/main/java/org/springframework/context/event/AbstractApplicationEventMulticaster.java:312-321 | A bean name removes a collected listener only by a failing pre-check whose singleton is that listener. |
| ListenerRetrievalProofs.BeanPassKeeps | spring-context/src/main/java/org/springframework/context/event/AbstractApplicationEventMulticaster.java:296-327 | A collected listener survives the bean loop unless some name retracts it. |
| ListenerRetrievalProofs.BeanStepAdds | spring-context/src/main/java/org/springframework/context/event/AbstractApplicationEventMulticaster.java:298-317 | A bean that passes the pre-check, resolves to a matching listener, and has a known scope when the lookup caches is in the collected listeners after its step. |
| ListenerRetrievalProofs.BeanPassComplete | spring-context/src/main/java/org/springframework/context/event/AbstractApplicationEventMulticaster.java:296-327 | Completeness of the bean-name loop: such a bean ends up in the collected listeners when no name retracts it. |
| ListenerRetrievalProofs.RetrieveKeepsDirect | spring-context/src/main/java/org/springframework/context/event/AbstractApplicationEventMulticaster.java:283-331 | Every registered instance that supports the event is returned, unless a bean name retracts it. |
| ListenerRetrievalProofs.RetrieveKeepsBeans | spring-context/src/main/java/org/springframework/context/event/AbstractApplicationEventMulticaster.java:247-347 | A successful lookup returns every matching listener bean that passes the pre-check and that no name retracts. |
| ListenerRetrievalProofs.DirectPassOwnershipIrrelevant | spring-context/src/main/java/org/springframework/context/event/AbstractApplicationEventMulticaster.java:283-293 | Whether an entry is populated does not change what the instance loop collects. |
| ListenerRetrievalProofs.BeanPassOwnershipIrrelevant | spring-context/src/main/java/org/springframework/context/event/AbstractApplicationEventMulticaster.java:296-327 | When isSingleton answers for every name, populating does not change the bean loop's outcome or listeners. |
| ListenerRetrievalProofs.RetrieveOwnershipIrrelevant | spring-context/src/main/java/org/springframework/context/event/AbstractApplicationEventMulticaster.java:247-347 | When isSingleton answers for every name, a populating lookup returns the same listeners as a non-populating one. |
| ListenerRetrievalProofs.CachedReadSound | spring-context/src/main/java/org/springframework/context/event/AbstractApplicationEventMulticaster.java:333-344 | Reading back a populated entry succeeds and returns only admissible listeners. Without cached names, it returns exactly the list the populating lookup returned. |
| ListenerRetrievalProofs.AllListenersSound | spring-context/src/main/java/org/springframework/context/event/AbstractApplicationEventMulticaster.java:539-561 | getApplicationListeners() returns a duplicate-free, sorted list. It contains every registered instance and every resolvable bean, and nothing else. |
| CachedReadOrder.ResolveBeansAppendsInstances | spring-context/src/main/java/org/springframework/context/event/AbstractApplicationEventMulticaster.java:509-521 | A cached read appends the named beans' instances, in name order, after the cached instances. |
| CachedReadOrder.InstancesSnoc | spring-context/src/main/java/org/springframework/context/event/AbstractApplicationEventMulticaster.java:512-514 | Resolving one more name appends its instance. |
| CachedReadOrder.BeanStepBalanced | spring-context/src/main/java/org/springframework/context/event/AbstractApplicationEventMulticaster.java:300-311 | One bean name keeps the balance: the result equals, as a multiset, the cached instances plus the cached names' instances. |
| CachedReadOrder.BeanPassBalanced | spring-context/src/main/java/org/springframework/context/event/AbstractApplicationEventMulticaster.java:296-327 | The whole bean loop keeps that balance. |
| CachedReadOrder.CachedReadSameListeners | spring-context/src/main/java/org/springframework/context/event/AbstractApplicationEventMulticaster.java:333-344 | When no name retracts a listener, reading a populated entry returns a sorted permutation of the list the populating lookup returned. |
| CachedReadOrder.CachedReadReordersTies | spring-context/src/main/java/org/springframework/context/event/AbstractApplicationEventMulticaster.java:504-525 | Take a, b and c of equal order, where b is a prototype bean and c a singleton bean. The populating lookup returns [a, b, c]. The cached read returns [a, c, b]. |
| CachedReadOrder.TiesLookup | spring-context/src/main/java/org/springframework/context/event/AbstractApplicationEventMulticaster.java:247-347 | In that situation, the populating lookup returns [a, b, c] and caches [a, c] and the name of b. |
| CachedReadOrder.TiesRead | spring-context/src/main/java/org/springframework/context/event/AbstractApplicationEventMulticaster.java:504-525 | In that situation, the cached read returns [a, c, b]. |
| CachedReadOrder.TiesDirect | spring-context/src/main/java/org/springframework/context/event/AbstractApplicationEventMulticaster.java:283-293 | In that situation, the instance loop collects a, both as a result and as a cached instance. |
| CachedReadOrder.TiesFirstName | spring-context/src/main/java/org/springframework/context/event/AbstractApplicationEventMulticaster.java:298-311 | In that situation, the prototype bean is added to the result and cached by name. |
| CachedReadOrder.TiesSecondName | spring-context/src/main/java/org/springframework/context/event/AbstractApplicationEventMulticaster.java:298-311 | In that situation, the singleton bean is added to the result and cached as an instance. |
| RetrievalLoops.BeanPassFailureExtends | spring-context/src/main/java/org/springframework/context/event/AbstractApplicationEventMulticaster.java:296-327 | A bean creation failure ends the bean loop: a failure on a prefix of the names is the failure of the whole lookup. |
| RetrievalLoops.ResolveBeansFailureExtends | spring-context/src/main/java/org/springframework/context/event/AbstractApplicationEventMulticaster.java:545-557 | A failure while resolving a prefix of the names is the failure of the whole read. |
| EventMulticaster.CachedListenerRetriever.constructor | spring-context/src/main/java/org/springframework/context/event/AbstractApplicationEventMulticaster.java:490-496 | A new cache entry has neither its instance set nor its name set. |
| EventMulticaster.CachedListenerRetriever.GetApplicationListeners | spring-context/src/main/java/org/springframework/context/event/AbstractApplicationEventMulticaster.java:498-526 | An unpopulated entry yields null. A populated one yields its instances followed by its named beans, resolved now. The list is sorted when names are present. |
| EventMulticaster.DefaultListenerRetriever.constructor | spring-context/src/main/java/org/springframework/context/event/AbstractApplicationEventMulticaster.java:533-537 | The registry starts empty. |
| EventMulticaster.DefaultListenerRetriever.GetApplicationListeners | spring-context/src/main/java/org/springframework/context/event/AbstractApplicationEventMulticaster.java:539-561 | The read returns every registered instance followed by each not-yet-contained bean, sorted by order. |
| EventMulticaster.ApplicationEventMulticaster.constructor | spring-context/src/main/java/org/springframework/context/event/AbstractApplicationEventMulticaster.java:78-92 | The registry and cache start empty. Without an explicit bean class loader, the bean factory's loader is used, which may itself be null. |
| EventMulticaster.ApplicationEventMulticaster.AddApplicationListener | spring-context/src/main/java/org/springframework/context/event/AbstractApplicationEventMulticaster.java:109-118 | The listener's proxy singleton target is removed, then the listener is added. The listener is registered afterwards and its distinct target is not. Bean names are untouched, the cache is cleared and the invariant is kept. |
| EventMulticaster.ApplicationEventMulticaster.AddApplicationListenerBean | spring-context/src/main/java/org/springframework/context/event/AbstractApplicationEventMulticaster.java:122-127 | The name is added. The instances are untouched and the cache is cleared. |
| EventMulticaster.ApplicationEventMulticaster.RemoveApplicationListener | spring-context/src/main/java/org/springframework/context/event/AbstractApplicationEventMulticaster.java:130-135 | The listener is no longer registered and nothing else is removed. The cache is cleared. |
| EventMulticaster.ApplicationEventMulticaster.RemoveApplicationListenerBean | spring-context/src/main/java/org/springframework/context/event/AbstractApplicationEventMulticaster.java:138-143 | The name is no longer registered and nothing else is removed. The cache is cleared. |
| EventMulticaster.ApplicationEventMulticaster.RemoveApplicationListeners | spring-context/src/main/java/org/springframework/context/event/AbstractApplicationEventMulticaster.java:146-151 | A listener stays exactly when it was registered and the predicate rejects it. The cache is cleared. |
| EventMulticaster.ApplicationEventMulticaster.RemoveApplicationListenerBeans | spring-context/src/main/java/org/springframework/context/event/AbstractApplicationEventMulticaster.java:154-159 | A name stays exactly when it was registered and the predicate rejects it. The cache is cleared. |
| EventMulticaster.ApplicationEventMulticaster.RemoveAllListeners | spring-context/src/main/java/org/springframework/context/event/AbstractApplicationEventMulticaster.java:162-168 | The registry and the cache are both empty afterwards. |
| EventMulticaster.ApplicationEventMulticaster.GetAllApplicationListeners | spring-context/src/main/java/org/springframework/context/event/AbstractApplicationEventMulticaster.java:176-180 | Returns every listener of the registry. The list is sorted, duplicate-free and contains every registered instance. |
| EventMulticaster.ApplicationEventMulticaster.GetApplicationListeners | spring-context/src/main/java/org/springframework/context/event/AbstractApplicationEventMulticaster.java:192-238 | No entry that was already cached is altered. A populated entry is read without touching the cache. An unpopulated entry, or an unsafe key, runs a non-populating lookup with the cache unchanged. A safe new key gets a fresh entry, populated exactly when the lookup succeeds. Every listener returned is admissible, and the invariant is kept. |
| EventMulticaster.ApplicationEventMulticaster.CacheSafe | spring-context/src/main/java/org/springframework/context/event/AbstractApplicationEventMulticaster.java:211-213 | Without a bean class loader every event is cacheable. Otherwise the event class must be cache-safe for that loader, and so must the source class when there is one. |
| EventMulticaster.ApplicationEventMulticaster.RetrieveSoundOnSuccess | spring-context/src/main/java/org/springframework/context/event/AbstractApplicationEventMulticaster.java:247-347 | Every listener a successful lookup returns supports the event and is registered. |
| EventMulticaster.ApplicationEventMulticaster.RetrieveApplicationListeners | spring-context/src/main/java/org/springframework/context/event/AbstractApplicationEventMulticaster.java:247-347 | Returns the lookup over the registry. On success it fills the given entry with what that lookup caches. On failure it leaves the entry untouched. |
| EventMulticaster.ApplicationEventMulticaster.CollectListeners | spring-context/src/main/java/org/springframework/context/event/AbstractApplicationEventMulticaster.java:283-293 | The instance loop computes DirectPass. |
| EventMulticaster.ApplicationEventMulticaster.CollectListenerBeans | spring-context/src/main/java/org/springframework/context/event/AbstractApplicationEventMulticaster.java:296-327 | The bean loop computes BeanPass and stops at the first bean creation failure. |
| EventMulticaster.ApplicationEventMulticaster.CollectListenerBean | spring-context/src/main/java/org/springframework/context/event/AbstractApplicationEventMulticaster.java:299-325 | One iteration of the bean loop computes BeanStep. |
| FactoryNames.TrimStart | spring-core/src/main/java/org/springframework/core/io/support/SpringFactoriesLoader.java:175 | Leading trimming drops a prefix of characters at or below space and stops at the first character above it. |
| FactoryNames.TrimEnd | spring-core/src/main/java/org/springframework/core/io/support/SpringFactoriesLoader.java:175 | Trailing trimming drops a suffix of characters at or below space and stops at the last character above it. |
| FactoryNames.Trim | spring-core/src/main/java/org/springframework/core/io/support/SpringFactoriesLoader.java:175 | String.trim yields no longer a string, which neither starts nor ends with a character at or below space. |
| FactoryNames.TrimInfix | spring-core/src/main/java/org/springframework/core/io/support/SpringFactoriesLoader.java:175 | The trimmed string is a substring of the original. Only trimmable characters lie before and after it. |
| FactoryNames.TrimIdempotent | spring-core/src/main/java/org/springframework/core/io/support/SpringFactoriesLoader.java:188 | Trimming twice is trimming once. |
| FactoryNames.Pieces | spring-core/src/main/java/org/springframework/core/io/support/SpringFactoriesLoader.java:178 | Splitting at commas yields at least one piece, none of which contains a comma. |
| FactoryNames.CommaDelimitedListToStringArray | spring-core/src/main/java/org/springframework/core/io/support/SpringFactoriesLoader.java:178 | Splitting yields an empty array exactly for the empty string. No element contains a comma. |
| FactoryNames.JoinPieces | spring-core/src/main/java/org/springframework/core/io/support/SpringFactoriesLoader.java:178 | Joining the pieces with commas gives back the original string. |
| FactoryNames.PiecesNoComma | spring-core/src/main/java/org/springframework/core/io/support/SpringFactoriesLoader.java:178 | A string without commas is one piece. |
| FactoryNames.PiecesAfterComma | spring-core/src/main/java/org/springframework/core/io/support/SpringFactoriesLoader.java:178 | Splitting "a,b" yields a followed by the pieces of b. |
| FactoryNames.PiecesJoin | spring-core/src/main/java/org/springframework/core/io/support/SpringFactoriesLoader.java:178 | Splitting comma-joined comma-free pieces gives back the pieces. |
| FactoryNames.SplitRoundTrip | spring-core/src/main/java/org/springframework/core/io/support/SpringFactoriesLoader.java:178 | Splitting and joining are inverse in both directions on non-empty strings. |
| FactoryNames.EntryPairs | spring-core/src/main/java/org/springframework/core/io/support/SpringFactoriesLoader.java:173-189 | One property contributes one (trimmed key, trimmed name) pair per comma-separated name, in order. |
| FactoryNames.AddName | spring-core/src/main/java/org/springframework/core/io/support/SpringFactoriesLoader.java:188 | computeIfAbsent(...).add(name) appends the name to the key's list, creating it if needed. Other keys are untouched. |
| FactoryNames.CollectSnoc | spring-core/src/main/java/org/springframework/core/io/support/SpringFactoriesLoader.java:188 | Merging one more pair is one more computeIfAbsent(...).add. |
| FactoryNames.CollectEntryStep | spring-core/src/main/java/org/springframework/core/io/support/SpringFactoriesLoader.java:179-189 | One iteration of the inner loop merges the next trimmed name under the trimmed key. |
| FactoryNames.ResourcePairsStep | spring-core/src/main/java/org/springframework/core/io/support/SpringFactoriesLoader.java:173-190 | One iteration of the entry loop contributes that entry's pairs. |
| FactoryNames.Dedupe | spring-core/src/main/java/org/springframework/core/io/support/SpringFactoriesLoader.java:201-202 | replaceAll with distinct keeps the keys. Each list gets the same names without duplicates. |
| FactoryNames.Collect | spring-core/src/main/java/org/springframework/core/io/support/SpringFactoriesLoader.java:173-190 | Merging pairs adds exactly their keys to the table, and only ever appends to an existing list. |
| FactoryNames.Factories | spring-core/src/main/java/org/springframework/core/io/support/SpringFactoriesLoader.java:156-202 | The merged table has a key exactly when some resource contributes a name under it, and every list is duplicate-free. |
| FactoryNames.GetOrEmpty | spring-core/src/main/java/org/springframework/core/io/support/SpringFactoriesLoader.java:136 | getOrDefault: the list under the key, or the empty list when the key is absent. A table of duplicate-free lists gives a duplicate-free answer. |
| FactoryNames.CollectContents | spring-core/src/main/java/org/springframework/core/io/support/SpringFactoriesLoader.java:160-191 | Merging creates a key exactly when some pair names it. It appends to each key its names in pair order. |
| FactoryNames.NamesForAppend | spring-core/src/main/java/org/springframework/core/io/support/SpringFactoriesLoader.java:160-191 | The names contributed under a key by two runs of pairs are those of the first, then those of the second. |
| FactoryNames.ContributionsAppend | spring-core/src/main/java/org/springframework/core/io/support/SpringFactoriesLoader.java:160-191 | The pairs of two runs of resources are those of the first, then those of the second. |
| FactoryNames.FactoriesContents | spring-core/src/main/java/org/springframework/core/io/support/SpringFactoriesLoader.java:156-202 | The table has a key exactly when some resource names an implementation for it. Its list is the distinct names contributed, in resource and entry order. |
| FactoryNames.TableContents | spring-core/src/main/java/org/springframework/core/io/support/SpringFactoriesLoader.java:188-202 | The same, for any run of pairs. |
| FactoryNames.DedupeAt | spring-core/src/main/java/org/springframework/core/io/support/SpringFactoriesLoader.java:201-202 | After replaceAll, a key's list is the distinct version of its merged list. |
| FactoryNames.FactoriesInResourceOrder | spring-core/src/main/java/org/springframework/core/io/support/SpringFactoriesLoader.java:159-202 | Names from earlier resources come before names from later ones, de-duplicated. |
| FactoryNames.FactoryNamesDistinct | spring-core/src/main/java/org/springframework/core/io/support/SpringFactoriesLoader.java:159-202 | A key's list is duplicate-free and holds exactly the contributed names, ordered by first contribution. |
| FactoryNames.EntryPairsTrimmed | spring-core/src/main/java/org/springframework/core/io/support/SpringFactoriesLoader.java:175-188 | Every pair from one property is trimmed on both sides. |
| FactoryNames.ResourcePairsTrimmed | spring-core/src/main/java/org/springframework/core/io/support/SpringFactoriesLoader.java:173-190 | Every pair from one resource is trimmed. |
| FactoryNames.ContributionsTrimmed | spring-core/src/main/java/org/springframework/core/io/support/SpringFactoriesLoader.java:160-191 | Every pair from all resources is trimmed. |
| FactoryNames.NamesForFrom | spring-core/src/main/java/org/springframework/core/io/support/SpringFactoriesLoader.java:188 | A name listed under a key comes from a pair of that key and name. |
| FactoryNames.FactoriesTrimmed | spring-core/src/main/java/org/springframework/core/io/support/SpringFactoriesLoader.java:156-202 | Every key and every name in the table is trimmed. |
| SpringFactories.TableFor | spring-core/src/main/java/org/springframework/core/io/support/SpringFactoriesLoader.java:148-248 | Loading fails exactly when the resources cannot be read. The failure names META-INF/spring.factories. |
| SpringFactories.SpringFactoriesLoader.ClassLoaderToUse | spring-core/src/main/java/org/springframework/core/io/support/SpringFactoriesLoader.java:120-124 | A given class loader is used as is; a null one falls back to the loader of SpringFactoriesLoader itself. |
| SpringFactories.NamesFrom | spring-core/src/main/java/org/springframework/core/io/support/SpringFactoriesLoader.java:119-137 | Names for a factory type fail exactly when loading fails. Otherwise they are the distinct trimmed names contributed under the type's name, in order, and empty when there are none. |
| SpringFactories.InstantiateAll | spring-core/src/main/java/org/springframework/core/io/support/SpringFactoriesLoader.java:105-108 | Instantiation succeeds exactly when every name instantiates. It then yields one instance per name, in order. A failure names an implementation that cannot be instantiated, and the factory type. |
| SpringFactories.InstantiateAllFailureExtends | spring-core/src/main/java/org/springframework/core/io/support/SpringFactoriesLoader.java:106-108 | The first instantiation failure ends loadFactories. |
| SpringFactories.SpringFactoriesLoader.constructor | spring-core/src/main/java/org/springframework/core/io/support/SpringFactoriesLoader.java:62-71 | The cache starts empty. |
| SpringFactories.SpringFactoriesLoader.LoadSpringFactories | spring-core/src/main/java/org/springframework/core/io/support/SpringFactoriesLoader.java:148-248 | The result is always the table for the class loader. A cached table is returned with the cache unchanged. A successful load caches its table. A failure caches nothing. |
| SpringFactories.SpringFactoriesLoader.MergeResources | spring-core/src/main/java/org/springframework/core/io/support/SpringFactoriesLoader.java:156-202 | The merge loop computes the de-duplicated table of all resources. |
| SpringFactories.SpringFactoriesLoader.MergeResource | spring-core/src/main/java/org/springframework/core/io/support/SpringFactoriesLoader.java:173-190 | Merging one resource adds its pairs. |
| SpringFactories.SpringFactoriesLoader.MergeEntry | spring-core/src/main/java/org/springframework/core/io/support/SpringFactoriesLoader.java:175-189 | Merging one property adds its pairs. |
| SpringFactories.SpringFactoriesLoader.LoadFactoryNames | spring-core/src/main/java/org/springframework/core/io/support/SpringFactoriesLoader.java:119-137 | Without a class loader, the loader's own is used. Returns the names for the factory type, which are duplicate-free. The cache gains that loader's table exactly when it was absent and the resources could be read; otherwise it is unchanged. |
| SpringFactories.SpringFactoriesLoader.LoadFactories | spring-core/src/main/java/org/springframework/core/io/support/SpringFactoriesLoader.java:95-111 | Looks up the names, instantiates each, and sorts the instances by order. The first failure propagates, and the result is sorted. The cache changes as for loadFactoryNames. |
| SpringFactories.SpringFactoriesLoader.InstantiateFactories | spring-core/src/main/java/org/springframework/core/io/support/SpringFactoriesLoader.java:105-108 | The instantiation loop computes InstantiateAll. |
| SpringFactories.LoadedFactories | spring-core/src/main/java/org/springframework/core/io/support/SpringFactoriesLoader.java:95-111 | A successful loadFactories returns one instance per name. They are sorted by order and form a permutation of the instantiated names. |

## Left out

- Concurrency is not modelled, because every method runs alone. This covers the `synchronized (defaultRetriever)` blocks, the `volatile` fields, the `ConcurrentHashMap` retriever cache and the `ConcurrentReferenceHashMap` factories cache with its weak references. `putIfAbsent` is a check followed by an insert.
- EventMulticaster.ApplicationEventMulticaster.constructor: `setBeanClassLoader` and `setBeanFactory` are folded into the constructor. The bean factory and class loader are fixed for the object's lifetime. Setting them later, and the `IllegalStateException` for a factory that is not a `ConfigurableBeanFactory`, are not modelled.
- The bean factory is a fixed oracle. `getBean` always answers the same, so a prototype bean does not yield a fresh instance per call, and beans do not change between calls.
- Generic type introspection is an oracle. This covers `ResolvableType.isAssignableFrom`, `GenericApplicationListenerAdapter`, `resolveDeclaredEventType`, `AopProxyUtils.getSingletonTarget`, `ClassUtils.isCacheSafe` and `ResolvableType.toString` and `hashCode`.
- `AnnotationAwareOrderComparator` is abstracted to a stable sort by an integer order key. Its `Ordered`, `PriorityOrdered` and `@Order` rules are not modelled.
- `getBeanFactory()` failing without a bean factory is the `NoBeanFactory` failure. Of the bean factory's calls, only `getBean` may fail with another exception; that is the `BeanCreationFailed` failure. Other exceptions from `getType`, `getMergedBeanDefinition` and `isSingleton` (lines 304, 366 and 375) are not modelled.
- Resource I/O and `Properties` parsing are not modelled. `getResources` and `loadProperties` become a reader that returns each resource's (key, value) entries, or None for an `IOException`.
- Class loading and reflection in `instantiateFactory` (lines 250-264) are not modelled. They become a function that returns an instance or None. A class that is not assignable to the factory type is one of the None cases.
- Logging, `Assert.notNull`, `ListenerCacheKey.toString` and the unmodifiable-list wrappers are not modelled, because they do not change the result.
- `StringUtils.commaDelimitedListToStringArray` is not part of this model as source. It is modelled from its documented behaviour: split at every comma, and an empty string yields no elements.
- `String.trim` is modelled on characters at or below U+0020. Java compares UTF-16 code units; here a `char` is a Unicode scalar value, so `String.compareTo` differs for characters outside the Basic Multilingual Plane.
