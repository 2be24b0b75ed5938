/**
 * SpringFactoriesLoader: reading the factory-name table of a class loader (cached per
 * class loader after the first successful read), looking up the names for one factory
 * type, and instantiating them in order. Reading resources and instantiating classes are
 * given as functions.
 */
module SpringFactories {
  import opened Wrappers
  import opened JavaTypes
  import opened Seqs
  import opened Ordering
  import opened FactoryNames

  /** Where each jar keeps its factory names. */
  const FACTORIES_RESOURCE_LOCATION: string := "META-INF/spring.factories"

  /** The IllegalArgumentException the loader throws, and why. */
  datatype LoadFailure =
    // reading the resources failed with an IOException
    | UnableToLoadFactories(location: string)
    // loading, checking or constructing an implementation class failed
    | UnableToInstantiateFactory(implementationName: string, factoryTypeName: string)

  /**
   * classLoader.getResources(location), each URL's properties loaded in turn: the entries of
   * every resource found, or None when an IOException occurs.
   */
  type ResourceReader = (ClassLoader, string) -> Option<seq<Resource>>

  /** What a read of a class loader's resources yields: the merged, de-duplicated table or the failure. */
  function TableFor(read: ResourceReader, classLoader: ClassLoader): (r: Result<map<string, seq<string>>, LoadFailure>)
    ensures r.Failure? <==> read(classLoader, FACTORIES_RESOURCE_LOCATION).None?
    ensures r.Failure? ==> r.error == UnableToLoadFactories(FACTORIES_RESOURCE_LOCATION)
  {
    match read(classLoader, FACTORIES_RESOURCE_LOCATION)
    case None => Failure(UnableToLoadFactories(FACTORIES_RESOURCE_LOCATION))
    case Some(resources) => Success(Factories(resources))
  }

  /** loadFactoryNames over a read: the de-duplicated names contributed for the factory type, in first-occurrence order. */
  function NamesFrom(read: ResourceReader, classLoader: ClassLoader, factoryTypeName: string): (r: Result<seq<string>, LoadFailure>)
    ensures r.Failure? <==> read(classLoader, FACTORIES_RESOURCE_LOCATION).None?
    ensures r.Success? ==>
      r.value == Distinct(NamesFor(Contributions(read(classLoader, FACTORIES_RESOURCE_LOCATION).value), factoryTypeName))
  {
    match TableFor(read, classLoader)
    case Failure(f) => Failure(f)
    case Success(table) =>
      FactoriesContents(read(classLoader, FACTORIES_RESOURCE_LOCATION).value, factoryTypeName);
      Success(GetOrEmpty(table, factoryTypeName))
  }

  /** The instances of the named implementations, in name order, or the first failure. */
  function InstantiateAll<T>(names: seq<string>, factoryType: Class, classLoader: ClassLoader,
                             instantiate: (string, Class, ClassLoader) -> Option<T>): (r: Result<seq<T>, LoadFailure>)
    ensures r.Success? <==> forall i :: 0 <= i < |names| ==> instantiate(names[i], factoryType, classLoader).Some?
    ensures r.Success? ==> (|r.value| == |names| &&
              forall i :: 0 <= i < |names| ==> r.value[i] == instantiate(names[i], factoryType, classLoader).value)
    ensures r.Failure? ==> r.error.UnableToInstantiateFactory? && r.error.factoryTypeName == factoryType.name
    ensures r.Failure? ==> r.error.implementationName in names &&
                           instantiate(r.error.implementationName, factoryType, classLoader).None?
  {
    if names == [] then Success([])
    else
      var init, last := names[..|names| - 1], names[|names| - 1];
      match InstantiateAll(init, factoryType, classLoader, instantiate)
      case Failure(f) => Failure(f)
      case Success(prefix) =>
        match instantiate(last, factoryType, classLoader)
        case None => Failure(UnableToInstantiateFactory(last, factoryType.name))
        case Some(x) => Success(prefix + [x])
  }

  lemma {:induction false} InstantiateAllFailureExtends<T>(names: seq<string>, k: nat, factoryType: Class, classLoader: ClassLoader,
                                                           instantiate: (string, Class, ClassLoader) -> Option<T>)
    requires k <= |names|
    requires InstantiateAll(names[..k], factoryType, classLoader, instantiate).Failure?
    ensures InstantiateAll(names, factoryType, classLoader, instantiate) == InstantiateAll(names[..k], factoryType, classLoader, instantiate)
  {
    if k < |names| {
      var init := names[..|names| - 1];
      assert init[..k] == names[..k];
      InstantiateAllFailureExtends(init, k, factoryType, classLoader, instantiate);
    } else {
      assert names[..k] == names;
    }
  }

  /** The factory loader's static state: the table cache, and the class loader it was itself loaded by. */
  class SpringFactoriesLoader {
    var cache: map<ClassLoader, map<string, seq<string>>>
    const ownClassLoader: ClassLoader
    const read: ResourceReader

    /** Every cached table is the one a read of that class loader's resources yields. */
    ghost predicate Valid()
      reads this
    {
      forall classLoader :: classLoader in cache ==> TableFor(read, classLoader) == Success(cache[classLoader])
    }

    constructor (ownClassLoader: ClassLoader, read: ResourceReader)
      ensures Valid() && cache == map[]
      ensures this.ownClassLoader == ownClassLoader && this.read == read
    {
      cache := map[];
      this.ownClassLoader := ownClassLoader;
      this.read := read;
    }

    /** A null class loader stands for the loader's own. */
    function ClassLoaderToUse(classLoader: Option<ClassLoader>): (r: ClassLoader)
      // a given class loader is used as is; null falls back to the loader of this class
      ensures classLoader.Some? ==> r == classLoader.value
      ensures classLoader.None? ==> r == ownClassLoader
    {
      classLoader.GetOr(ownClassLoader)
    }

    /**
     * loadSpringFactories: a cached table is returned as it is; otherwise every entry of
     * every resource is merged, each list de-duplicated, and the table cached, unless the
     * read fails.
     */
    method LoadSpringFactories(classLoader: ClassLoader) returns (r: Result<map<string, seq<string>>, LoadFailure>)
      requires Valid()
      modifies this
      ensures Valid()
      ensures r == TableFor(read, classLoader)
      ensures classLoader in old(cache) ==> cache == old(cache) && r == Success(old(cache)[classLoader])
      ensures classLoader !in old(cache) && r.Success? ==> cache == old(cache)[classLoader := r.value]
      ensures r.Failure? ==> cache == old(cache)
    {
      if classLoader in cache {
        return Success(cache[classLoader]);
      }
      var urls := read(classLoader, FACTORIES_RESOURCE_LOCATION);
      if urls.None? {
        return Failure(UnableToLoadFactories(FACTORIES_RESOURCE_LOCATION));
      }
      var result := MergeResources(urls.value);
      cache := cache[classLoader := result];
      return Success(result);
    }

    /** The loop over the resources found, then the replaceAll that de-duplicates every list. */
    static method MergeResources(resources: seq<Resource>) returns (result: map<string, seq<string>>)
      ensures result == Factories(resources)
    {
      result := map[];
      var i := 0;
      while i < |resources|
        invariant 0 <= i <= |resources|
        invariant result == Collect(map[], Contributions(resources[..i]))
      {
        assert resources[..i + 1][..i] == resources[..i];
        result := MergeResource(result, Contributions(resources[..i]), resources[i]);
        i := i + 1;
      }
      assert resources[..i] == resources;
      result := Dedupe(result);
    }

    /** The loop over the entries of one resource. */
    static method MergeResource(result: map<string, seq<string>>, ghost added: seq<Contribution>, resource: Resource)
      returns (result': map<string, seq<string>>)
      requires result == Collect(map[], added)
      ensures result' == Collect(map[], added + ResourcePairs(resource))
    {
      result' := result;
      assert added + ResourcePairs(resource[..0]) == added;
      var j := 0;
      while j < |resource|
        invariant 0 <= j <= |resource|
        invariant result' == Collect(map[], added + ResourcePairs(resource[..j]))
      {
        ResourcePairsStep(added, resource, j);
        result' := MergeEntry(result', added + ResourcePairs(resource[..j]), resource[j]);
        j := j + 1;
      }
      assert resource[..j] == resource;
    }

    /** One entry: its trimmed key gets each trimmed piece of its value appended. */
    static method MergeEntry(result: map<string, seq<string>>, ghost added: seq<Contribution>, entry: Entry)
      returns (result': map<string, seq<string>>)
      requires result == Collect(map[], added)
      ensures result' == Collect(map[], added + EntryPairs(entry))
    {
      var factoryTypeName := Trim(entry.0);
      var factoryImplementationNames := CommaDelimitedListToStringArray(entry.1);
      result' := result;
      assert added + EntryPairs(entry)[..0] == added;
      var k := 0;
      while k < |factoryImplementationNames|
        invariant 0 <= k <= |factoryImplementationNames|
        invariant result' == Collect(map[], added + EntryPairs(entry)[..k])
      {
        CollectEntryStep(map[], added, entry, k);
        result' := AddName(result', factoryTypeName, Trim(factoryImplementationNames[k]));
        k := k + 1;
      }
      assert EntryPairs(entry)[..k] == EntryPairs(entry);
    }

    /** loadFactoryNames: the de-duplicated names registered for the factory type, or none. */
    method LoadFactoryNames(factoryType: Class, classLoader: Option<ClassLoader>) returns (r: Result<seq<string>, LoadFailure>)
      requires Valid()
      modifies this
      ensures Valid()
      ensures r == NamesFrom(read, ClassLoaderToUse(classLoader), factoryType.name)
      ensures r.Success? ==> NoDups(r.value)
      ensures var cl := ClassLoaderToUse(classLoader);
        cache == if cl in old(cache) || TableFor(read, cl).Failure? then old(cache) else old(cache)[cl := TableFor(read, cl).value]
    {
      var table := LoadSpringFactories(ClassLoaderToUse(classLoader));
      if table.Failure? {
        return Failure(table.error);
      }
      return Success(GetOrEmpty(table.value, factoryType.name));
    }

    /**
     * loadFactories: one instance per name loadFactoryNames returns, in that order,
     * then sorted by order value; the first instantiation failure ends it.
     */
    method LoadFactories<T>(factoryType: Class, classLoader: Option<ClassLoader>,
                            instantiate: (string, Class, ClassLoader) -> Option<T>, order: T -> int)
      returns (r: Result<seq<T>, LoadFailure>)
      requires Valid()
      modifies this
      ensures Valid()
      ensures var names := NamesFrom(read, ClassLoaderToUse(classLoader), factoryType.name);
        r == if names.Failure? then Failure(names.error)
             else match InstantiateAll(names.value, factoryType, ClassLoaderToUse(classLoader), instantiate)
                  case Failure(f) => Failure(f)
                  case Success(instances) => Success(SortByOrder(instances, order))
      ensures r.Success? ==> SortedBy(r.value, order)
      ensures var cl := ClassLoaderToUse(classLoader);
        cache == if cl in old(cache) || TableFor(read, cl).Failure? then old(cache) else old(cache)[cl := TableFor(read, cl).value]
    {
      var classLoaderToUse := ClassLoaderToUse(classLoader);
      var names := LoadFactoryNames(factoryType, Some(classLoaderToUse));
      if names.Failure? {
        return Failure(names.error);
      }
      var instances := InstantiateFactories(names.value, factoryType, classLoaderToUse, instantiate);
      if instances.Failure? {
        return Failure(instances.error);
      }
      return Success(SortByOrder(instances.value, order));
    }

    /** The loop of loadFactories: one instance per name, in order; a failing instantiation ends it. */
    static method InstantiateFactories<T>(factoryImplementationNames: seq<string>, factoryType: Class, classLoader: ClassLoader,
                                          instantiate: (string, Class, ClassLoader) -> Option<T>)
      returns (r: Result<seq<T>, LoadFailure>)
      ensures r == InstantiateAll(factoryImplementationNames, factoryType, classLoader, instantiate)
    {
      var result: seq<T> := [];
      var i := 0;
      while i < |factoryImplementationNames|
        invariant 0 <= i <= |factoryImplementationNames|
        invariant InstantiateAll(factoryImplementationNames[..i], factoryType, classLoader, instantiate) == Success(result)
      {
        var name := factoryImplementationNames[i];
        assert factoryImplementationNames[..i + 1][..i] == factoryImplementationNames[..i];
        var instance := instantiate(name, factoryType, classLoader);
        if instance.None? {
          InstantiateAllFailureExtends(factoryImplementationNames, i + 1, factoryType, classLoader, instantiate);
          return Failure(UnableToInstantiateFactory(name, factoryType.name));
        }
        result := result + [instance.value];
        i := i + 1;
      }
      assert factoryImplementationNames[..i] == factoryImplementationNames;
      return Success(result);
    }
  }

  /**
   * What loadFactories returns on success: exactly one instance for each name
   * loadFactoryNames returns, as a multiset, ordered by order value.
   */
  lemma LoadedFactories<T>(names: seq<string>, factoryType: Class, classLoader: ClassLoader,
                           instantiate: (string, Class, ClassLoader) -> Option<T>, order: T -> int)
    requires InstantiateAll(names, factoryType, classLoader, instantiate).Success?
    ensures var sorted := SortByOrder(InstantiateAll(names, factoryType, classLoader, instantiate).value, order);
      && |sorted| == |names|
      && SortedBy(sorted, order)
      && multiset(sorted) == multiset(seq(|names|, i requires 0 <= i < |names| => instantiate(names[i], factoryType, classLoader).value))
  {
    var instances := InstantiateAll(names, factoryType, classLoader, instantiate).value;
    assert instances == seq(|names|, i requires 0 <= i < |names| => instantiate(names[i], factoryType, classLoader).value);
  }
}
