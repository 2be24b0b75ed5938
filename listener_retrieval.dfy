/**
 * What retrieveApplicationListeners and the two retrievers' getApplicationListeners
 * compute, as functions of a snapshot of the registry, and what is proved about it.
 * The methods in EventMulticaster are proved to compute exactly these.
 */
module ListenerRetrieval {
  import opened Wrappers
  import opened JavaTypes
  import opened Seqs
  import opened Ordering
  import opened ListenerMatching

  /** Why a lookup throws instead of returning listeners. */
  datatype Failure =
    // getBeanFactory(): there are listener bean names but no bean factory (IllegalStateException)
    | NoBeanFactory
    // getBean threw something other than NoSuchBeanDefinitionException
    | BeanCreationFailed(beanName: string)

  /**
   * The three collections retrieveApplicationListeners builds: allListeners and, when it
   * populates a retriever, filteredListeners and filteredListenerBeans (empty otherwise).
   */
  datatype Collected = Collected(all: seq<Listener>, filtered: seq<Listener>, filteredBeans: seq<string>)

  /** The sorted result, and what a populated retriever is given. */
  datatype Retrieved = Retrieved(listeners: seq<Listener>, cachedListeners: seq<Listener>, cachedBeans: seq<string>)

  /** Some registered name resolves to the listener. */
  ghost predicate ResolvedFrom(bf: BeanFactory, names: seq<string>, l: Listener) {
    exists n :: n in names && bf.getBean(n) == Bean(l)
  }

  /** A listener a lookup may return: it passes the full check and is registered directly or by name. */
  ghost predicate Admissible(ts: TypeSystem, bf: Option<BeanFactory>, listeners: seq<Listener>, names: seq<string>,
                             eventType: ResolvableType, sourceType: Option<Class>, l: Listener) {
    SupportsEvent(ts, l, eventType, sourceType) &&
    (l in listeners || (bf.Some? && ResolvedFrom(bf.value, names, l)))
  }

  /** A name that belongs in filteredListenerBeans: a non-singleton bean whose instance passes the full check. */
  ghost predicate RoutedAsPrototype(ts: TypeSystem, bf: BeanFactory, eventType: ResolvableType, sourceType: Option<Class>, n: string) {
    bf.isSingleton(n) == Found(false) && bf.getBean(n).Bean? &&
    SupportsEvent(ts, bf.getBean(n).listener, eventType, sourceType)
  }

  // ---------------------------------------------------------------------------
  // The loop over directly registered listeners
  // ---------------------------------------------------------------------------

  function DirectStep(ts: TypeSystem, eventType: ResolvableType, sourceType: Option<Class>, owned: bool,
                      c: Collected, listener: Listener): Collected
  {
    if SupportsEvent(ts, listener, eventType, sourceType) then
      Collected(c.all + [listener], if owned then SetAdd(c.filtered, listener) else c.filtered, c.filteredBeans)
    else c
  }

  /** The first loop of retrieveApplicationListeners, over the listeners in order. */
  function DirectPass(ts: TypeSystem, eventType: ResolvableType, sourceType: Option<Class>, owned: bool,
                      listeners: seq<Listener>): (r: Collected)
    ensures forall l :: l in r.all ==> l in listeners && SupportsEvent(ts, l, eventType, sourceType)
    ensures forall l :: l in listeners && SupportsEvent(ts, l, eventType, sourceType) ==> l in r.all
    ensures NoDups(listeners) ==> NoDups(r.all) && r.filtered == (if owned then r.all else [])
    ensures r.filteredBeans == []
  {
    if listeners == [] then Collected([], [], [])
    else
      var init, last := listeners[..|listeners| - 1], listeners[|listeners| - 1];
      assert listeners == init + [last];
      assert NoDups(listeners) ==> NoDups(init) && last !in init;
      DirectStep(ts, eventType, sourceType, owned, DirectPass(ts, eventType, sourceType, owned, init), last)
  }

  // ---------------------------------------------------------------------------
  // The loop over listener bean names
  // ---------------------------------------------------------------------------

  /** One iteration of the second loop, including the catch of NoSuchBeanDefinitionException. */
  function BeanStep(ts: TypeSystem, bf: BeanFactory, eventType: ResolvableType, sourceType: Option<Class>, owned: bool,
                    c: Collected, name: string): (r: Result<Collected, Failure>)
    // only a failure to create a bean that passed the pre-check escapes
    ensures r.Failure? <==> PreCheck(ts, bf, name, eventType) == Found(true) && bf.getBean(name).CreationFailure?
    // a name whose pre-check fails retracts its singleton from the result and the cached listeners
    ensures PreCheck(ts, bf, name, eventType) == Found(false) && bf.getSingleton(name).Some? && NoDups(c.all) ==>
              r.Success? && bf.getSingleton(name).value !in r.value.all &&
              (owned ==> bf.getSingleton(name).value !in r.value.filtered)
    // a new matching instance of an owned lookup goes to the cached listeners if singleton, else its name to the cached names
    ensures owned && PreCheck(ts, bf, name, eventType) == Found(true) && bf.getBean(name).Bean? &&
            bf.getBean(name).listener !in c.all &&
            SupportsEvent(ts, bf.getBean(name).listener, eventType, sourceType) && bf.isSingleton(name).Found? ==>
              r.Success? && bf.getBean(name).listener in r.value.all &&
              (bf.isSingleton(name).value ==> bf.getBean(name).listener in r.value.filtered) &&
              (!bf.isSingleton(name).value ==> name in r.value.filteredBeans)
  {
    match PreCheck(ts, bf, name, eventType)
    case NoSuchBeanDefinition => Success(c)
    case Found(true) =>
      (match bf.getBean(name)
       case NoSuchBean => Success(c)
       case CreationFailure => Failure(BeanCreationFailed(name))
       case Bean(l) =>
         if l in c.all || !SupportsEvent(ts, l, eventType, sourceType) then Success(c)
         else if !owned then Success(c.(all := c.all + [l]))
         else
           (match bf.isSingleton(name)
            case NoSuchBeanDefinition => Success(c)
            case Found(true) => Success(Collected(c.all + [l], SetAdd(c.filtered, l), c.filteredBeans))
            case Found(false) => Success(Collected(c.all + [l], c.filtered, SetAdd(c.filteredBeans, name)))))
    case Found(false) =>
      match bf.getSingleton(name)
      case None => Success(c)
      case Some(l) =>
        assert NoDups(c.all) ==> RemoveFirst(c.all, l) == Remove(c.all, l) by {
          if NoDups(c.all) { RemoveFirstNoDups(c.all, l); }
        }
        Success(Collected(RemoveFirst(c.all, l), if owned then Remove(c.filtered, l) else c.filtered, c.filteredBeans))
  }

  /** The second loop of retrieveApplicationListeners, over the bean names in order, stopping at the first escaping failure. */
  function BeanPass(ts: TypeSystem, bf: BeanFactory, eventType: ResolvableType, sourceType: Option<Class>, owned: bool,
                    c0: Collected, names: seq<string>): (r: Result<Collected, Failure>)
    // the loop throws exactly when some name passes the pre-check and its bean cannot be created
    ensures r.Failure? <==>
      exists n :: n in names && PreCheck(ts, bf, n, eventType) == Found(true) && bf.getBean(n).CreationFailure?
    // and then it names such a bean
    ensures r.Failure? ==>
      r.error.BeanCreationFailed? && r.error.beanName in names &&
      PreCheck(ts, bf, r.error.beanName, eventType) == Found(true) && bf.getBean(r.error.beanName).CreationFailure?
  {
    if names == [] then Success(c0)
    else
      var init, last := names[..|names| - 1], names[|names| - 1];
      assert names == init + [last];
      match BeanPass(ts, bf, eventType, sourceType, owned, c0, init)
      case Failure(f) => Failure(f)
      case Success(c) => BeanStep(ts, bf, eventType, sourceType, owned, c, last)
  }

  /** Sort allListeners; a populated retriever gets the sorted list itself when no name needs re-resolving. */
  function Finish(ts: TypeSystem, c: Collected): (r: Retrieved)
    ensures SortedBy(r.listeners, ts.order) && multiset(r.listeners) == multiset(c.all)
    ensures r.cachedBeans == c.filteredBeans
    ensures c.filteredBeans != [] ==> r.cachedListeners == c.filtered
    // with no name to re-resolve, the retriever caches the sorted list itself
    ensures c.filteredBeans == [] && NoDups(c.all) ==> r.cachedListeners == r.listeners
  {
    var sorted := SortByOrder(c.all, ts.order);
    assert NoDups(c.all) ==> NoDups(sorted) by {
      if NoDups(c.all) { SortByOrderNoDups(c.all, ts.order); }
    }
    Retrieved(sorted, if c.filteredBeans == [] then Distinct(sorted) else c.filtered, c.filteredBeans)
  }

  /** retrieveApplicationListeners over a snapshot; `owned` is whether a retriever is to be populated. */
  function Retrieve(ts: TypeSystem, bf: Option<BeanFactory>, listeners: seq<Listener>, names: seq<string>,
                    eventType: ResolvableType, sourceType: Option<Class>, owned: bool): (r: Result<Retrieved, Failure>)
    // it throws only with bean names to resolve: without a bean factory, or when a bean cannot be created
    ensures r.Failure? <==>
      names != [] &&
      (bf.None? ||
       exists n :: n in names && PreCheck(ts, bf.value, n, eventType) == Found(true) && bf.value.getBean(n).CreationFailure?)
    ensures r.Failure? && bf.None? ==> r.error == NoBeanFactory
    ensures r.Success? ==> SortedBy(r.value.listeners, ts.order)
  {
    var c0 := DirectPass(ts, eventType, sourceType, owned, listeners);
    if names == [] then Success(Finish(ts, c0))
    else if bf.None? then Failure(NoBeanFactory)
    else
      match BeanPass(ts, bf.value, eventType, sourceType, owned, c0, names)
      case Failure(f) => Failure(f)
      case Success(c) => Success(Finish(ts, c))
  }

  /** Only the returned list of a retrieval. */
  function Listing(r: Result<Retrieved, Failure>): Result<seq<Listener>, Failure> {
    match r
    case Success(rv) => Success(rv.listeners)
    case Failure(f) => Failure(f)
  }

  // ---------------------------------------------------------------------------
  // Reading a populated retriever and the unfiltered listing
  // ---------------------------------------------------------------------------

  /**
   * The loop over names in both retrievers' getApplicationListeners: append each resolved
   * instance to acc (when skipContained, only if not already there), skip vanished beans,
   * stop at any other failure.
   */
  function ResolveBeans(bf: BeanFactory, acc: seq<Listener>, names: seq<string>, skipContained: bool): (r: Result<seq<Listener>, Failure>)
    ensures r.Failure? <==> exists n :: n in names && bf.getBean(n).CreationFailure?
    ensures r.Success? ==> acc <= r.value
    ensures r.Success? ==> forall l :: l in r.value ==> l in acc || ResolvedFrom(bf, names, l)
    ensures r.Success? ==> forall n :: n in names && bf.getBean(n).Bean? ==> bf.getBean(n).listener in r.value
    ensures r.Success? && skipContained && NoDups(acc) ==> NoDups(r.value)
  {
    if names == [] then Success(acc)
    else
      var init, last := names[..|names| - 1], names[|names| - 1];
      assert names == init + [last];
      match ResolveBeans(bf, acc, init, skipContained)
      case Failure(f) => Failure(f)
      case Success(prefix) =>
        match bf.getBean(last)
        case NoSuchBean => Success(prefix)
        case CreationFailure => Failure(BeanCreationFailed(last))
        case Bean(l) => Success(if skipContained && l in prefix then prefix else prefix + [l])
  }

  /** CachedListenerRetriever.getApplicationListeners on a populated retriever. */
  function CachedRead(ts: TypeSystem, bf: Option<BeanFactory>, listeners: seq<Listener>, names: seq<string>): (r: Result<seq<Listener>, Failure>)
    ensures r.Failure? <==>
      names != [] && (bf.None? || exists n :: n in names && bf.value.getBean(n).CreationFailure?)
    // the cached instances are all returned, together with the beans the cached names resolve to, and nothing else
    ensures r.Success? ==> forall l :: l in listeners ==> l in r.value
    ensures r.Success? && bf.Some? ==> forall n :: n in names && bf.value.getBean(n).Bean? ==> bf.value.getBean(n).listener in r.value
    ensures r.Success? ==> forall l :: l in r.value ==> l in listeners || (bf.Some? && ResolvedFrom(bf.value, names, l))
    // the list is re-sorted only when names were resolved
    ensures r.Success? && names != [] ==> SortedBy(r.value, ts.order)
  {
    if names == [] then Success(listeners)
    else if bf.None? then Failure(NoBeanFactory)
    else
      match ResolveBeans(bf.value, listeners, names, false)
      case Failure(f) => Failure(f)
      case Success(all) =>
        var sorted := SortByOrder(all, ts.order);
        assert forall l :: l in sorted <==> l in all by {
          forall l ensures l in sorted <==> l in all {
            assert l in sorted <==> l in multiset(sorted);
            assert l in all <==> l in multiset(all);
          }
        }
        Success(sorted)
  }

  /** DefaultListenerRetriever.getApplicationListeners: every registered listener, sorted. */
  function AllListeners(ts: TypeSystem, bf: Option<BeanFactory>, listeners: seq<Listener>, names: seq<string>): (r: Result<seq<Listener>, Failure>)
    ensures r.Failure? <==>
      names != [] && (bf.None? || exists n :: n in names && bf.value.getBean(n).CreationFailure?)
    ensures r.Success? ==> SortedBy(r.value, ts.order) && forall l :: l in listeners ==> l in r.value
  {
    var resolved := if names == [] then Success(listeners)
                    else if bf.None? then Failure(NoBeanFactory)
                    else ResolveBeans(bf.value, listeners, names, true);
    match resolved
    case Failure(f) => Failure(f)
    case Success(all) =>
        var sorted := SortByOrder(all, ts.order);
        assert forall l :: l in listeners ==> l in sorted by {
          forall l | l in listeners ensures l in sorted {
            assert l in multiset(all);
          }
        }
        Success(sorted)
  }
}

module ListenerRetrievalProofs {
  import opened Wrappers
  import opened JavaTypes
  import opened Seqs
  import opened Ordering
  import opened ListenerMatching
  import opened ListenerRetrieval

  /** What holds of the three collections at every point of retrieveApplicationListeners. */
  ghost predicate CollectedOk(ts: TypeSystem, bf: Option<BeanFactory>, listeners: seq<Listener>, names: seq<string>,
                              eventType: ResolvableType, sourceType: Option<Class>, owned: bool, c: Collected) {
    && NoDups(c.all) && NoDups(c.filtered) && NoDups(c.filteredBeans)
    && (forall l :: l in c.all ==> Admissible(ts, bf, listeners, names, eventType, sourceType, l))
    && (forall l :: l in c.filtered ==> l in c.all)
    && (!owned ==> c.filtered == [] && c.filteredBeans == [])
    && (forall n :: n in c.filteredBeans ==> n in names && bf.Some? && RoutedAsPrototype(ts, bf.value, eventType, sourceType, n))
  }

  /** A name whose pre-check fails and whose singleton is the listener: it retracts that listener. */
  predicate Retracts(ts: TypeSystem, bf: BeanFactory, eventType: ResolvableType, name: string, l: Listener) {
    PreCheck(ts, bf, name, eventType) == Found(false) && bf.getSingleton(name) == Some(l)
  }

  lemma DirectPassOk(ts: TypeSystem, bf: Option<BeanFactory>, listeners: seq<Listener>, names: seq<string>,
                     eventType: ResolvableType, sourceType: Option<Class>, owned: bool)
    requires NoDups(listeners)
    ensures CollectedOk(ts, bf, listeners, names, eventType, sourceType, owned, DirectPass(ts, eventType, sourceType, owned, listeners))
  {
  }

  lemma BeanStepOk(ts: TypeSystem, bf: BeanFactory, listeners: seq<Listener>, names: seq<string>,
                   eventType: ResolvableType, sourceType: Option<Class>, owned: bool, c: Collected, name: string)
    requires name in names
    requires CollectedOk(ts, Some(bf), listeners, names, eventType, sourceType, owned, c)
    requires BeanStep(ts, bf, eventType, sourceType, owned, c, name).Success?
    ensures CollectedOk(ts, Some(bf), listeners, names, eventType, sourceType, owned,
                        BeanStep(ts, bf, eventType, sourceType, owned, c, name).value)
  {
    var r := BeanStep(ts, bf, eventType, sourceType, owned, c, name).value;
    match PreCheck(ts, bf, name, eventType)
    case NoSuchBeanDefinition =>
    case Found(true) =>
      if bf.getBean(name).Bean? {
        var l := bf.getBean(name).listener;
        assert ResolvedFrom(bf, names, l);
      }
    case Found(false) =>
      if bf.getSingleton(name).Some? {
        RemoveFirstNoDups(c.all, bf.getSingleton(name).value);
      }
  }

  lemma {:induction false} BeanPassOk(ts: TypeSystem, bf: BeanFactory, listeners: seq<Listener>, names: seq<string>,
                                      eventType: ResolvableType, sourceType: Option<Class>, owned: bool,
                                      c0: Collected, prefix: seq<string>)
    requires forall n :: n in prefix ==> n in names
    requires CollectedOk(ts, Some(bf), listeners, names, eventType, sourceType, owned, c0)
    requires BeanPass(ts, bf, eventType, sourceType, owned, c0, prefix).Success?
    ensures CollectedOk(ts, Some(bf), listeners, names, eventType, sourceType, owned,
                        BeanPass(ts, bf, eventType, sourceType, owned, c0, prefix).value)
  {
    if prefix != [] {
      var init, last := prefix[..|prefix| - 1], prefix[|prefix| - 1];
      assert prefix == init + [last];
      BeanPassOk(ts, bf, listeners, names, eventType, sourceType, owned, c0, init);
      var c := BeanPass(ts, bf, eventType, sourceType, owned, c0, init).value;
      BeanStepOk(ts, bf, listeners, names, eventType, sourceType, owned, c, last);
    }
  }

  /**
   * What a retrieval returns: sorted, without duplicates, and only listeners that pass the
   * full check and are registered; what it hands a retriever to cache: listeners from the
   * result, and names of non-singleton beans whose instances pass the full check; and when
   * there are no such names, exactly the result.
   */
  lemma RetrieveSound(ts: TypeSystem, bf: Option<BeanFactory>, listeners: seq<Listener>, names: seq<string>,
                      eventType: ResolvableType, sourceType: Option<Class>, owned: bool)
    requires NoDups(listeners)
    requires Retrieve(ts, bf, listeners, names, eventType, sourceType, owned).Success?
    ensures var rv := Retrieve(ts, bf, listeners, names, eventType, sourceType, owned).value;
      && NoDups(rv.listeners)
      && SortedBy(rv.listeners, ts.order)
      && (forall l :: l in rv.listeners ==> Admissible(ts, bf, listeners, names, eventType, sourceType, l))
      && (forall l :: l in rv.cachedListeners ==> l in rv.listeners)
      && (forall n :: n in rv.cachedBeans ==> owned && n in names && bf.Some? && RoutedAsPrototype(ts, bf.value, eventType, sourceType, n))
      && (rv.cachedBeans == [] ==> rv.cachedListeners == rv.listeners)
  {
    var c0 := DirectPass(ts, eventType, sourceType, owned, listeners);
    DirectPassOk(ts, bf, listeners, names, eventType, sourceType, owned);
    var c := c0;
    if names != [] {
      BeanPassOk(ts, bf.value, listeners, names, eventType, sourceType, owned, c0, names);
      c := BeanPass(ts, bf.value, eventType, sourceType, owned, c0, names).value;
    }
    assert Retrieve(ts, bf, listeners, names, eventType, sourceType, owned).value == Finish(ts, c);
    var sorted := SortByOrder(c.all, ts.order);
    SortByOrderNoDups(c.all, ts.order);
    assert forall l :: l in sorted <==> l in c.all by {
      forall l ensures l in sorted <==> l in c.all {
        assert l in sorted <==> l in multiset(sorted);
        assert l in c.all <==> l in multiset(c.all);
      }
    }
  }

  lemma BeanStepKeeps(ts: TypeSystem, bf: BeanFactory, eventType: ResolvableType, sourceType: Option<Class>, owned: bool,
                      c: Collected, name: string, l: Listener)
    requires l in c.all && !Retracts(ts, bf, eventType, name, l)
    requires BeanStep(ts, bf, eventType, sourceType, owned, c, name).Success?
    ensures l in BeanStep(ts, bf, eventType, sourceType, owned, c, name).value.all
  {
  }

  lemma {:induction false} BeanPassKeeps(ts: TypeSystem, bf: BeanFactory, eventType: ResolvableType, sourceType: Option<Class>,
                                         owned: bool, c0: Collected, names: seq<string>, l: Listener)
    requires l in c0.all
    requires forall n :: n in names ==> !Retracts(ts, bf, eventType, n, l)
    requires BeanPass(ts, bf, eventType, sourceType, owned, c0, names).Success?
    ensures l in BeanPass(ts, bf, eventType, sourceType, owned, c0, names).value.all
  {
    if names != [] {
      var init, last := names[..|names| - 1], names[|names| - 1];
      assert names == init + [last];
      BeanPassKeeps(ts, bf, eventType, sourceType, owned, c0, init, l);
      BeanStepKeeps(ts, bf, eventType, sourceType, owned,
                    BeanPass(ts, bf, eventType, sourceType, owned, c0, init).value, last, l);
    }
  }

  /**
   * Completeness for direct registrations: a registered listener that passes the full check
   * is returned unless a registered name whose pre-check fails has it as its singleton.
   */
  lemma RetrieveKeepsDirect(ts: TypeSystem, bf: Option<BeanFactory>, listeners: seq<Listener>, names: seq<string>,
                            eventType: ResolvableType, sourceType: Option<Class>, owned: bool, l: Listener)
    requires l in listeners && SupportsEvent(ts, l, eventType, sourceType)
    requires bf.Some? ==> forall n :: n in names ==> !Retracts(ts, bf.value, eventType, n, l)
    requires Retrieve(ts, bf, listeners, names, eventType, sourceType, owned).Success?
    ensures l in Retrieve(ts, bf, listeners, names, eventType, sourceType, owned).value.listeners
  {
    var c0 := DirectPass(ts, eventType, sourceType, owned, listeners);
    var c := c0;
    if names != [] {
      BeanPassKeeps(ts, bf.value, eventType, sourceType, owned, c0, names, l);
      c := BeanPass(ts, bf.value, eventType, sourceType, owned, c0, names).value;
    }
    assert Retrieve(ts, bf, listeners, names, eventType, sourceType, owned).value == Finish(ts, c);
    assert l in multiset(c.all);
  }

  /** A name whose pre-check passes and whose bean supports the event contributes that bean. */
  lemma BeanStepAdds(ts: TypeSystem, bf: BeanFactory, eventType: ResolvableType, sourceType: Option<Class>, owned: bool,
                     c: Collected, name: string, l: Listener)
    requires PreCheck(ts, bf, name, eventType) == Found(true) && bf.getBean(name) == Bean(l)
    requires SupportsEvent(ts, l, eventType, sourceType)
    requires owned ==> bf.isSingleton(name).Found?
    ensures BeanStep(ts, bf, eventType, sourceType, owned, c, name).Success?
    ensures l in BeanStep(ts, bf, eventType, sourceType, owned, c, name).value.all
  {
  }

  /**
   * Completeness of the bean loop: the bean of a registered name that passes the pre-check
   * and the full check is collected, unless some name retracts it. When populating, the
   * name's isSingleton must answer, since an unknown definition there skips the bean.
   */
  lemma {:induction false} BeanPassComplete(ts: TypeSystem, bf: BeanFactory, eventType: ResolvableType, sourceType: Option<Class>,
                                            owned: bool, c0: Collected, names: seq<string>, n: string, l: Listener)
    requires n in names && PreCheck(ts, bf, n, eventType) == Found(true) && bf.getBean(n) == Bean(l)
    requires SupportsEvent(ts, l, eventType, sourceType)
    requires owned ==> bf.isSingleton(n).Found?
    requires forall m :: m in names ==> !Retracts(ts, bf, eventType, m, l)
    requires BeanPass(ts, bf, eventType, sourceType, owned, c0, names).Success?
    ensures l in BeanPass(ts, bf, eventType, sourceType, owned, c0, names).value.all
  {
    var init, last := names[..|names| - 1], names[|names| - 1];
    assert names == init + [last];
    var prev := BeanPass(ts, bf, eventType, sourceType, owned, c0, init);
    assert prev.Success?;
    if n in init {
      BeanPassComplete(ts, bf, eventType, sourceType, owned, c0, init, n, l);
      BeanStepKeeps(ts, bf, eventType, sourceType, owned, prev.value, last, l);
    } else {
      BeanStepAdds(ts, bf, eventType, sourceType, owned, prev.value, last, l);
    }
  }

  /**
   * Completeness for registrations by name: the bean of a registered name that passes the
   * pre-check and the full check is returned unless some registered name retracts it.
   */
  lemma RetrieveKeepsBeans(ts: TypeSystem, bf: BeanFactory, listeners: seq<Listener>, names: seq<string>,
                           eventType: ResolvableType, sourceType: Option<Class>, owned: bool, n: string, l: Listener)
    requires n in names && PreCheck(ts, bf, n, eventType) == Found(true) && bf.getBean(n) == Bean(l)
    requires SupportsEvent(ts, l, eventType, sourceType)
    requires owned ==> bf.isSingleton(n).Found?
    requires forall m :: m in names ==> !Retracts(ts, bf, eventType, m, l)
    requires Retrieve(ts, Some(bf), listeners, names, eventType, sourceType, owned).Success?
    ensures l in Retrieve(ts, Some(bf), listeners, names, eventType, sourceType, owned).value.listeners
  {
    var c0 := DirectPass(ts, eventType, sourceType, owned, listeners);
    BeanPassComplete(ts, bf, eventType, sourceType, owned, c0, names, n, l);
    var c := BeanPass(ts, bf, eventType, sourceType, owned, c0, names).value;
    assert Retrieve(ts, Some(bf), listeners, names, eventType, sourceType, owned).value == Finish(ts, c);
    assert l in multiset(c.all);
  }

  lemma {:induction false} DirectPassOwnershipIrrelevant(ts: TypeSystem, eventType: ResolvableType, sourceType: Option<Class>,
                                                         listeners: seq<Listener>)
    ensures DirectPass(ts, eventType, sourceType, true, listeners).all == DirectPass(ts, eventType, sourceType, false, listeners).all
  {
    if listeners != [] {
      DirectPassOwnershipIrrelevant(ts, eventType, sourceType, listeners[..|listeners| - 1]);
    }
  }

  lemma {:induction false} BeanPassOwnershipIrrelevant(ts: TypeSystem, bf: BeanFactory, eventType: ResolvableType, sourceType: Option<Class>,
                                                       c1: Collected, c2: Collected, names: seq<string>)
    requires c1.all == c2.all
    requires forall n :: n in names ==> bf.isSingleton(n).Found?
    ensures var r1, r2 := BeanPass(ts, bf, eventType, sourceType, true, c1, names), BeanPass(ts, bf, eventType, sourceType, false, c2, names);
      r1.Success? == r2.Success? && (r1.Failure? ==> r1.error == r2.error) && (r1.Success? ==> r1.value.all == r2.value.all)
  {
    if names != [] {
      var init, last := names[..|names| - 1], names[|names| - 1];
      assert names == init + [last];
      BeanPassOwnershipIrrelevant(ts, bf, eventType, sourceType, c1, c2, init);
    }
  }

  /**
   * Whether the caller populates a retriever does not change the list it gets back, as long
   * as isSingleton answers for every name (an owning caller skips a name isSingleton does not know).
   */
  lemma RetrieveOwnershipIrrelevant(ts: TypeSystem, bf: Option<BeanFactory>, listeners: seq<Listener>, names: seq<string>,
                                    eventType: ResolvableType, sourceType: Option<Class>)
    requires bf.Some? ==> forall n :: n in names ==> bf.value.isSingleton(n).Found?
    ensures Listing(Retrieve(ts, bf, listeners, names, eventType, sourceType, true)) ==
            Listing(Retrieve(ts, bf, listeners, names, eventType, sourceType, false))
  {
    DirectPassOwnershipIrrelevant(ts, eventType, sourceType, listeners);
    if names != [] && bf.Some? {
      BeanPassOwnershipIrrelevant(ts, bf.value, eventType, sourceType,
        DirectPass(ts, eventType, sourceType, true, listeners), DirectPass(ts, eventType, sourceType, false, listeners), names);
    }
  }

  /**
   * Reading a retriever populated by an owned retrieval never fails and returns only
   * listeners that pass the full check and are registered; when nothing needs re-resolving
   * it returns exactly the list the populating lookup returned.
   */
  lemma CachedReadSound(ts: TypeSystem, bf: Option<BeanFactory>, listeners: seq<Listener>, names: seq<string>,
                        eventType: ResolvableType, sourceType: Option<Class>)
    requires NoDups(listeners)
    requires Retrieve(ts, bf, listeners, names, eventType, sourceType, true).Success?
    ensures var rv := Retrieve(ts, bf, listeners, names, eventType, sourceType, true).value;
      var read := CachedRead(ts, bf, rv.cachedListeners, rv.cachedBeans);
      && read.Success?
      && (forall l :: l in read.value ==> Admissible(ts, bf, listeners, names, eventType, sourceType, l))
      && (rv.cachedBeans == [] ==> read.value == rv.listeners)
  {
    var rv := Retrieve(ts, bf, listeners, names, eventType, sourceType, true).value;
    RetrieveSound(ts, bf, listeners, names, eventType, sourceType, true);
    if rv.cachedBeans != [] {
      var f := bf.value;
      var resolved := ResolveBeans(f, rv.cachedListeners, rv.cachedBeans, false);
      assert resolved.Success?;
      var all := resolved.value;
      forall l | l in all ensures Admissible(ts, bf, listeners, names, eventType, sourceType, l) {
        if l !in rv.cachedListeners {
          var n :| n in rv.cachedBeans && f.getBean(n) == Bean(l);
          assert RoutedAsPrototype(ts, f, eventType, sourceType, n);
          assert n in names;
          assert ResolvedFrom(f, names, l);
        }
      }
      var read := SortByOrder(all, ts.order);
      forall l | l in read ensures Admissible(ts, bf, listeners, names, eventType, sourceType, l) {
        assert l in multiset(all);
      }
    }
  }

  /**
   * The unfiltered listing: sorted, without duplicates, every directly registered listener
   * and every resolvable named one, and nothing else.
   */
  lemma AllListenersSound(ts: TypeSystem, bf: Option<BeanFactory>, listeners: seq<Listener>, names: seq<string>)
    requires NoDups(listeners)
    requires AllListeners(ts, bf, listeners, names).Success?
    ensures var r := AllListeners(ts, bf, listeners, names).value;
      && NoDups(r) && SortedBy(r, ts.order)
      && (forall l :: l in listeners ==> l in r)
      && (forall l :: l in r ==> l in listeners || (bf.Some? && ResolvedFrom(bf.value, names, l)))
      && (bf.Some? ==> forall n :: n in names && bf.value.getBean(n).Bean? ==> bf.value.getBean(n).listener in r)
  {
    var all := if names == [] then listeners else ResolveBeans(bf.value, listeners, names, true).value;
    assert AllListeners(ts, bf, listeners, names).value == SortByOrder(all, ts.order);
    SortByOrderNoDups(all, ts.order);
    forall l ensures l in SortByOrder(all, ts.order) <==> l in all {
      assert l in all <==> l in multiset(all);
    }
  }
}

/**
 * What a cache hit returns when non-singleton bean names were cached: the cached
 * listeners followed by fresh instances of those names, sorted again. That is the same
 * listeners as the populating lookup returned, sorted, but listeners with equal order
 * values need not come back in the same relative order.
 */
module CachedReadOrder {
  import opened Wrappers
  import opened JavaTypes
  import opened Seqs
  import opened Ordering
  import opened ListenerMatching
  import opened ListenerRetrieval
  import opened ListenerRetrievalProofs

  /** The instances the names resolve to, in order, skipping names that do not resolve. */
  function Instances(bf: BeanFactory, names: seq<string>): seq<Listener> {
    if names == [] then []
    else
      var last := names[|names| - 1];
      Instances(bf, names[..|names| - 1]) + (if bf.getBean(last).Bean? then [bf.getBean(last).listener] else [])
  }

  lemma {:induction false} ResolveBeansAppendsInstances(bf: BeanFactory, acc: seq<Listener>, names: seq<string>)
    requires ResolveBeans(bf, acc, names, false).Success?
    ensures ResolveBeans(bf, acc, names, false).value == acc + Instances(bf, names)
  {
    if names != [] {
      ResolveBeansAppendsInstances(bf, acc, names[..|names| - 1]);
    }
  }

  /** An owned lookup in which no name retracts a listener: what is collected is the cached listeners plus the cached names' instances. */
  ghost predicate Balanced(bf: BeanFactory, done: seq<string>, c: Collected) {
    && multiset(c.all) == multiset(c.filtered) + multiset(Instances(bf, c.filteredBeans))
    && (forall l :: l in c.filtered ==> l in c.all)
    && (forall n :: n in c.filteredBeans ==> n in done)
  }

  lemma {:induction false} InstancesSnoc(bf: BeanFactory, names: seq<string>, n: string)
    requires bf.getBean(n).Bean?
    ensures Instances(bf, names + [n]) == Instances(bf, names) + [bf.getBean(n).listener]
  {
    assert (names + [n])[..|names|] == names;
  }

  lemma BeanStepBalanced(ts: TypeSystem, bf: BeanFactory, eventType: ResolvableType, sourceType: Option<Class>,
                         done: seq<string>, c: Collected, name: string)
    requires name !in done
    requires !(PreCheck(ts, bf, name, eventType) == Found(false) && bf.getSingleton(name).Some?)
    requires Balanced(bf, done, c)
    requires BeanStep(ts, bf, eventType, sourceType, true, c, name).Success?
    ensures Balanced(bf, done + [name], BeanStep(ts, bf, eventType, sourceType, true, c, name).value)
  {
    var r := BeanStep(ts, bf, eventType, sourceType, true, c, name).value;
    if r != c {
      var l := bf.getBean(name).listener;
      assert l !in c.all && l !in c.filtered;
      if bf.isSingleton(name) == Found(true) {
        assert r == Collected(c.all + [l], c.filtered + [l], c.filteredBeans);
      } else {
        assert name !in c.filteredBeans;
        InstancesSnoc(bf, c.filteredBeans, name);
        assert r == Collected(c.all + [l], c.filtered, c.filteredBeans + [name]);
      }
    }
  }

  lemma {:induction false} BeanPassBalanced(ts: TypeSystem, bf: BeanFactory, eventType: ResolvableType, sourceType: Option<Class>,
                                            c0: Collected, names: seq<string>)
    requires NoDups(names)
    requires forall n :: n in names ==> !(PreCheck(ts, bf, n, eventType) == Found(false) && bf.getSingleton(n).Some?)
    requires Balanced(bf, [], c0)
    requires BeanPass(ts, bf, eventType, sourceType, true, c0, names).Success?
    ensures Balanced(bf, names, BeanPass(ts, bf, eventType, sourceType, true, c0, names).value)
  {
    if names != [] {
      var init, last := names[..|names| - 1], names[|names| - 1];
      assert names == init + [last];
      assert NoDups(init) && last !in init;
      BeanPassBalanced(ts, bf, eventType, sourceType, c0, init);
      var c := BeanPass(ts, bf, eventType, sourceType, true, c0, init).value;
      BeanStepBalanced(ts, bf, eventType, sourceType, init, c, last);
    }
  }

  /**
   * A hit on an entry with cached names returns the populating lookup's listeners, as a
   * multiset, sorted; this needs that no registered name retracts a listener.
   */
  lemma CachedReadSameListeners(ts: TypeSystem, bf: BeanFactory, listeners: seq<Listener>, names: seq<string>,
                                eventType: ResolvableType, sourceType: Option<Class>)
    requires NoDups(listeners) && NoDups(names)
    requires forall n :: n in names ==> !(PreCheck(ts, bf, n, eventType) == Found(false) && bf.getSingleton(n).Some?)
    requires Retrieve(ts, Some(bf), listeners, names, eventType, sourceType, true).Success?
    ensures var rv := Retrieve(ts, Some(bf), listeners, names, eventType, sourceType, true).value;
      var read := CachedRead(ts, Some(bf), rv.cachedListeners, rv.cachedBeans);
      read.Success? && multiset(read.value) == multiset(rv.listeners) && SortedBy(read.value, ts.order)
  {
    var rv := Retrieve(ts, Some(bf), listeners, names, eventType, sourceType, true).value;
    CachedReadSound(ts, Some(bf), listeners, names, eventType, sourceType);
    RetrieveSound(ts, Some(bf), listeners, names, eventType, sourceType, true);
    if rv.cachedBeans != [] {
      var c0 := DirectPass(ts, eventType, sourceType, true, listeners);
      assert Balanced(bf, [], c0);
      BeanPassBalanced(ts, bf, eventType, sourceType, c0, names);
      var c := BeanPass(ts, bf, eventType, sourceType, true, c0, names).value;
      assert rv == Finish(ts, c);
      ResolveBeansAppendsInstances(bf, c.filtered, c.filteredBeans);
    }
  }

  /**
   * Equal order values, a registered instance a, a non-singleton bean "b" and a
   * singleton bean "c", all passing the checks: the populating lookup returns a, b, c;
   * the next hit returns a, c, b.
   */
  lemma CachedReadReordersTies(ts: TypeSystem, bf: BeanFactory, eventType: ResolvableType, a: Listener, b: Listener, c: Listener)
    requires a != b && b != c && a != c
    requires ts.order(a) == ts.order(b) == ts.order(c)
    requires SupportsEvent(ts, a, eventType, None) && SupportsEvent(ts, b, eventType, None) && SupportsEvent(ts, c, eventType, None)
    requires bf.getType("b") == Found(None) && bf.getBean("b") == Bean(b) && bf.isSingleton("b") == Found(false)
    requires bf.getType("c") == Found(None) && bf.getBean("c") == Bean(c) && bf.isSingleton("c") == Found(true)
    ensures Retrieve(ts, Some(bf), [a], ["b", "c"], eventType, None, true) == Success(Retrieved([a, b, c], [a, c], ["b"]))
    ensures CachedRead(ts, Some(bf), [a, c], ["b"]) == Success([a, c, b])
  {
    TiesLookup(ts, bf, eventType, a, b, c);
    TiesRead(ts, bf, a, b, c);
  }

  lemma TiesLookup(ts: TypeSystem, bf: BeanFactory, eventType: ResolvableType, a: Listener, b: Listener, c: Listener)
    requires a != b && b != c && a != c
    requires ts.order(a) == ts.order(b) == ts.order(c)
    requires SupportsEvent(ts, a, eventType, None) && SupportsEvent(ts, b, eventType, None) && SupportsEvent(ts, c, eventType, None)
    requires bf.getType("b") == Found(None) && bf.getBean("b") == Bean(b) && bf.isSingleton("b") == Found(false)
    requires bf.getType("c") == Found(None) && bf.getBean("c") == Bean(c) && bf.isSingleton("c") == Found(true)
    ensures Retrieve(ts, Some(bf), [a], ["b", "c"], eventType, None, true) == Success(Retrieved([a, b, c], [a, c], ["b"]))
  {
    var c0 := Collected([a], [a], []);
    var c2 := Collected([a, b, c], [a, c], ["b"]);
    TiesDirect(ts, eventType, a);
    TiesFirstName(ts, bf, eventType, a, b, c);
    TiesSecondName(ts, bf, eventType, a, b, c);
    var names := ["b", "c"];
    assert names[..|names| - 1] == ["b"];
    assert BeanPass(ts, bf, eventType, None, true, c0, names) == Success(c2);
    SortByOrderSorted([a, b, c], ts.order);
    assert Finish(ts, c2) == Retrieved([a, b, c], [a, c], ["b"]);
  }

  lemma TiesRead(ts: TypeSystem, bf: BeanFactory, a: Listener, b: Listener, c: Listener)
    requires ts.order(a) == ts.order(b) == ts.order(c)
    requires bf.getBean("b") == Bean(b)
    ensures CachedRead(ts, Some(bf), [a, c], ["b"]) == Success([a, c, b])
  {
    assert ["b"][..0] == [];
    assert ResolveBeans(bf, [a, c], [], false) == Success([a, c]);
    assert [a, c] + [b] == [a, c, b];
    assert ResolveBeans(bf, [a, c], ["b"], false) == Success([a, c, b]);
    SortByOrderSorted([a, c, b], ts.order);
  }

  lemma TiesDirect(ts: TypeSystem, eventType: ResolvableType, a: Listener)
    requires SupportsEvent(ts, a, eventType, None)
    ensures DirectPass(ts, eventType, None, true, [a]) == Collected([a], [a], [])
  {
    assert [a][..0] == [];
  }

  lemma TiesFirstName(ts: TypeSystem, bf: BeanFactory, eventType: ResolvableType, a: Listener, b: Listener, c: Listener)
    requires a != b && b != c && a != c
    requires ts.order(a) == ts.order(b) == ts.order(c)
    requires SupportsEvent(ts, a, eventType, None) && SupportsEvent(ts, b, eventType, None) && SupportsEvent(ts, c, eventType, None)
    requires bf.getType("b") == Found(None) && bf.getBean("b") == Bean(b) && bf.isSingleton("b") == Found(false)
    requires bf.getType("c") == Found(None) && bf.getBean("c") == Bean(c) && bf.isSingleton("c") == Found(true)
    ensures BeanPass(ts, bf, eventType, None, true, Collected([a], [a], []), ["b"]) == Success(Collected([a, b], [a], ["b"]))
  {
    assert ["b"][..0] == [];
    assert PreCheck(ts, bf, "b", eventType) == Found(true);
    var c0 := Collected([a], [a], []);
    assert b !in c0.all;
    var empty: seq<string> := [];
    assert SetAdd(empty, "b") == ["b"];
    assert c0.all + [b] == [a, b];
    var r := BeanStep(ts, bf, eventType, None, true, c0, "b");
    assert r.Success?;
    assert r.value == Collected([a, b], [a], ["b"]);
    assert BeanPass(ts, bf, eventType, None, true, c0, ["b"][..0]) == Success(c0);
  }

  lemma TiesSecondName(ts: TypeSystem, bf: BeanFactory, eventType: ResolvableType, a: Listener, b: Listener, c: Listener)
    requires a != b && b != c && a != c
    requires ts.order(a) == ts.order(b) == ts.order(c)
    requires SupportsEvent(ts, a, eventType, None) && SupportsEvent(ts, b, eventType, None) && SupportsEvent(ts, c, eventType, None)
    requires bf.getType("b") == Found(None) && bf.getBean("b") == Bean(b) && bf.isSingleton("b") == Found(false)
    requires bf.getType("c") == Found(None) && bf.getBean("c") == Bean(c) && bf.isSingleton("c") == Found(true)
    ensures BeanStep(ts, bf, eventType, None, true, Collected([a, b], [a], ["b"]), "c") == Success(Collected([a, b, c], [a, c], ["b"]))
  {
    assert PreCheck(ts, bf, "c", eventType) == Found(true);
    var c1 := Collected([a, b], [a], ["b"]);
    assert c !in c1.all;
    assert SetAdd([a], c) == [a, c];
    assert c1.all + [c] == [a, b, c];
    var r := BeanStep(ts, bf, eventType, None, true, c1, "c");
    assert r.Success?;
    assert r.value.all == [a, b, c];
    assert r.value.filtered == [a, c];
    assert r.value.filteredBeans == ["b"];
  }
}

/** Facts the loops of EventMulticaster need: an escaping failure in a prefix is the failure of the whole loop. */
module RetrievalLoops {
  import opened Wrappers
  import opened JavaTypes
  import opened ListenerMatching
  import opened ListenerRetrieval

  lemma {:induction false} BeanPassFailureExtends(ts: TypeSystem, bf: BeanFactory, eventType: ResolvableType, sourceType: Option<Class>,
                                                  owned: bool, c0: Collected, names: seq<string>, k: nat)
    requires k <= |names|
    requires BeanPass(ts, bf, eventType, sourceType, owned, c0, names[..k]).Failure?
    ensures BeanPass(ts, bf, eventType, sourceType, owned, c0, names) == BeanPass(ts, bf, eventType, sourceType, owned, c0, names[..k])
  {
    if k < |names| {
      var init := names[..|names| - 1];
      assert init[..k] == names[..k];
      BeanPassFailureExtends(ts, bf, eventType, sourceType, owned, c0, init, k);
    } else {
      assert names[..k] == names;
    }
  }

  lemma {:induction false} ResolveBeansFailureExtends(bf: BeanFactory, acc: seq<Listener>, names: seq<string>, skipContained: bool, k: nat)
    requires k <= |names|
    requires ResolveBeans(bf, acc, names[..k], skipContained).Failure?
    ensures ResolveBeans(bf, acc, names, skipContained) == ResolveBeans(bf, acc, names[..k], skipContained)
  {
    if k < |names| {
      var init := names[..|names| - 1];
      assert init[..k] == names[..k];
      ResolveBeansFailureExtends(bf, acc, init, skipContained, k);
      assert names == init + [names[|names| - 1]];
    } else {
      assert names[..k] == names;
    }
  }
}
