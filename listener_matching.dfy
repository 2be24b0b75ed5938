/**
 * Listeners, the collaborators the multicaster consults about them, and the
 * three supportsEvent checks: the cheap check on a listener bean's declared
 * type before it is instantiated, and the full check on a listener instance.
 */
module ListenerMatching {
  import opened Wrappers
  import opened JavaTypes

  /** An ApplicationListener instance, identified by the object it is. */
  datatype Listener = Listener(identity: nat)

  /**
   * Facts about types and listener instances that come from outside the core:
   * generic-type introspection, the listeners' own answers, AOP proxies,
   * class-loader cache safety and the order values used for sorting.
   */
  datatype TypeSystem = TypeSystem(
    // GenericApplicationListener or SmartApplicationListener is assignable from the class
    isGenericOrSmartListenerType: Class -> bool,
    // GenericApplicationListenerAdapter.resolveDeclaredEventType; None is null
    declaredEventType: Class -> Option<ResolvableType>,
    // ResolvableType.isAssignableFrom(declared, candidate)
    isAssignableFrom: (ResolvableType, ResolvableType) -> bool,
    // the instance is a GenericApplicationListener
    isGenericListener: Listener -> bool,
    // a GenericApplicationListener's own supportsEventType / supportsSourceType
    supportsEventType: (Listener, ResolvableType) -> bool,
    supportsSourceType: (Listener, Option<Class>) -> bool,
    // the same two questions answered by a GenericApplicationListenerAdapter around the instance
    adapterSupportsEventType: (Listener, ResolvableType) -> bool,
    adapterSupportsSourceType: (Listener, Option<Class>) -> bool,
    // AopProxyUtils.getSingletonTarget, when that target is itself a listener
    singletonTarget: Listener -> Option<Listener>,
    // ClassUtils.isCacheSafe
    isCacheSafe: (Class, ClassLoader) -> bool,
    // the order value AnnotationAwareOrderComparator sorts by
    order: Listener -> int)

  /** The outcome of a bean-factory query that throws NoSuchBeanDefinitionException for an unknown name. */
  datatype Lookup<+T> = Found(value: T) | NoSuchBeanDefinition

  /** The outcome of getBean: the instance, NoSuchBeanDefinitionException, or any other failure to create it. */
  datatype BeanResult = Bean(listener: Listener) | NoSuchBean | CreationFailure

  /** The answers of the ConfigurableBeanFactory the multicaster resolves listener bean names with. */
  datatype BeanFactory = BeanFactory(
    // getType(name); Found(None) is a type that cannot be determined
    getType: string -> Lookup<Option<Class>>,
    // getMergedBeanDefinition(name).getResolvableType().as(ApplicationListener.class).getGeneric(); Found(None) is NONE
    mergedEventType: string -> Lookup<Option<ResolvableType>>,
    // getBean(name, ApplicationListener.class)
    getBean: string -> BeanResult,
    // isSingleton(name)
    isSingleton: string -> Lookup<bool>,
    // getSingleton(name), when it is a listener; None covers null
    getSingleton: string -> Option<Listener>,
    // getBeanClassLoader(); None covers null
    beanClassLoader: Option<ClassLoader>)

  /**
   * supportsEvent(Class, ResolvableType): a listener class passes unless its
   * declared event type is known and cannot accept the event type.
   */
  function SupportsDeclaredEventType(ts: TypeSystem, listenerType: Class, eventType: ResolvableType): (r: bool)
    ensures ts.declaredEventType(listenerType).None? ==> r
    ensures !r <==> ts.declaredEventType(listenerType).Some? &&
                    !ts.isAssignableFrom(ts.declaredEventType(listenerType).value, eventType)
  {
    match ts.declaredEventType(listenerType)
    case None => true
    case Some(declared) => ts.isAssignableFrom(declared, eventType)
  }

  /**
   * supportsEvent(ConfigurableBeanFactory, String, ResolvableType): the check on a
   * listener bean before it is instantiated. NoSuchBeanDefinition is the exception
   * getType throws, which the caller catches.
   */
  function PreCheck(ts: TypeSystem, bf: BeanFactory, beanName: string, eventType: ResolvableType): (r: Lookup<bool>)
    ensures r.NoSuchBeanDefinition? <==> bf.getType(beanName).NoSuchBeanDefinition?
    // an undeterminable type, and a Generic or Smart listener type, always pass
    ensures bf.getType(beanName) == Found(None) ==> r == Found(true)
    ensures (bf.getType(beanName).Found? && bf.getType(beanName).value.Some? &&
             ts.isGenericOrSmartListenerType(bf.getType(beanName).value.value)) ==> r == Found(true)
    // a bean without its own bean definition (a manually registered singleton) is judged by its class alone
    ensures (bf.getType(beanName).Found? && bf.getType(beanName).value.Some? &&
             bf.mergedEventType(beanName).NoSuchBeanDefinition?) ==>
              r == Found(ts.isGenericOrSmartListenerType(bf.getType(beanName).value.value) ||
                         SupportsDeclaredEventType(ts, bf.getType(beanName).value.value, eventType))
    // it fails only for a known, plain listener type whose declared or generic event type rules the event out
    ensures r == Found(false) <==>
      bf.getType(beanName).Found? && bf.getType(beanName).value.Some? &&
      var listenerType := bf.getType(beanName).value.value;
      !ts.isGenericOrSmartListenerType(listenerType) &&
      (!SupportsDeclaredEventType(ts, listenerType, eventType) ||
       (bf.mergedEventType(beanName).Found? && bf.mergedEventType(beanName).value.Some? &&
        !ts.isAssignableFrom(bf.mergedEventType(beanName).value.value, eventType)))
  {
    match bf.getType(beanName)
    case NoSuchBeanDefinition => NoSuchBeanDefinition
    case Found(None) => Found(true)
    case Found(Some(listenerType)) =>
      if ts.isGenericOrSmartListenerType(listenerType) then Found(true)
      else if !SupportsDeclaredEventType(ts, listenerType, eventType) then Found(false)
      else
        match bf.mergedEventType(beanName)
        case NoSuchBeanDefinition => Found(true)
        case Found(generic) => Found(generic.None? || ts.isAssignableFrom(generic.value, eventType))
  }

  /**
   * supportsEvent(ApplicationListener, ResolvableType, Class): the full check on an
   * instance, asking a GenericApplicationListener itself and any other listener
   * through a GenericApplicationListenerAdapter. Both the event type and the source
   * type must be supported. What this filter lets through a lookup is stated by
   * ListenerRetrievalProofs.RetrieveSound, RetrieveKeepsDirect and RetrieveKeepsBeans.
   */
  function SupportsEvent(ts: TypeSystem, listener: Listener, eventType: ResolvableType, sourceType: Option<Class>): (r: bool)
    // a GenericApplicationListener answers for itself
    ensures ts.isGenericListener(listener) ==>
              (r <==> ts.supportsEventType(listener, eventType) && ts.supportsSourceType(listener, sourceType))
    // any other listener is judged by the adapter, never by the listener's own answers
    ensures !ts.isGenericListener(listener) ==>
              (r <==> ts.adapterSupportsEventType(listener, eventType) && ts.adapterSupportsSourceType(listener, sourceType))
  {
    if ts.isGenericListener(listener) then
      ts.supportsEventType(listener, eventType) && ts.supportsSourceType(listener, sourceType)
    else
      ts.adapterSupportsEventType(listener, eventType) && ts.adapterSupportsSourceType(listener, sourceType)
  }
}
