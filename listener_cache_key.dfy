/**
 * ListenerCacheKey: the (event type, source type) pair under which a filtered
 * listener retriever is cached.
 */
module ListenerCacheKeys {
  import opened Wrappers
  import opened JavaTypes

  /** ResolvableType.toString and hashCode, and Class.hashCode, which the key consults. */
  datatype KeyIntrospection = KeyIntrospection(
    typeString: ResolvableType -> string,
    typeHash: ResolvableType -> int32,
    classHash: Class -> int32)

  datatype ListenerCacheKey = ListenerCacheKey(eventType: ResolvableType, sourceType: Option<Class>)

  /** equals: equal event types and the same source class, or both source types null. */
  function Equals(a: ListenerCacheKey, b: ListenerCacheKey): (r: bool)
    ensures r <==> a == b
  {
    a.eventType == b.eventType && a.sourceType == b.sourceType
  }

  /** ObjectUtils.nullSafeHashCode for the source type. */
  function NullSafeHashCode(ki: KeyIntrospection, c: Option<Class>): int32 {
    match c
    case None => 0
    case Some(cls) => ki.classHash(cls)
  }

  /** hashCode: eventType.hashCode() * 29 + nullSafeHashCode(sourceType), in int arithmetic. */
  function HashCode(ki: KeyIntrospection, k: ListenerCacheKey): (r: int32)
    ensures (r as int - (ki.typeHash(k.eventType) as int * 29 + NullSafeHashCode(ki, k.sourceType) as int)) % TWO_TO_THE_32 == 0
  {
    var h := ki.typeHash(k.eventType) as int;
    var c := NullSafeHashCode(ki, k.sourceType) as int;
    var product := WrapInt32(h * 29);
    var r := WrapInt32(product as int + c);
    assert (product as int - h * 29) % TWO_TO_THE_32 == 0;
    assert (r as int - (product as int + c)) % TWO_TO_THE_32 == 0;
    r
  }

  /**
   * Equal keys have equal hash codes, as the contract of hashCode demands. Since Equals is
   * field-wise equality of the key, this follows from HashCode being a function of the key;
   * the substance is in Equals' own contract.
   */
  lemma EqualsImpliesSameHashCode(ki: KeyIntrospection, a: ListenerCacheKey, b: ListenerCacheKey)
    requires Equals(a, b)
    ensures HashCode(ki, a) == HashCode(ki, b)
  {
  }

  /** The source-type part of compareTo: null first, then by class name. */
  function CompareSourceTypes(a: Option<Class>, b: Option<Class>): (r: int)
    ensures a.None? && b.None? ==> r == 0
    ensures a.None? && b.Some? ==> r < 0
    ensures a.Some? && b.None? ==> r > 0
    ensures a.Some? && b.Some? ==> r == StringCompareTo(a.value.name, b.value.name)
  {
    match (a, b)
    case (None, None) => 0
    case (None, Some(_)) => -1
    case (Some(_), None) => 1
    case (Some(x), Some(y)) => StringCompareTo(x.name, y.name)
  }

  /**
   * compareTo: by the event type's string form, then by the source type. That this is a
   * total order consistent with Equals is proved by CompareToAntisymmetric,
   * CompareToTransitive, CompareToZero and EqualsImpliesCompareToZero.
   */
  function CompareTo(ki: KeyIntrospection, a: ListenerCacheKey, b: ListenerCacheKey): (r: int)
    ensures StringCompareTo(ki.typeString(a.eventType), ki.typeString(b.eventType)) != 0 ==>
              r == StringCompareTo(ki.typeString(a.eventType), ki.typeString(b.eventType))
    ensures ki.typeString(a.eventType) == ki.typeString(b.eventType) && a.sourceType.None? ==>
              (r == 0 <==> b.sourceType.None?) && (b.sourceType.Some? ==> r < 0)
    ensures StringCompareTo(ki.typeString(a.eventType), ki.typeString(b.eventType)) == 0 ==>
              r == CompareSourceTypes(a.sourceType, b.sourceType)
    ensures ki.typeString(a.eventType) == ki.typeString(b.eventType) && a.sourceType.Some? && b.sourceType.Some? ==>
              r == StringCompareTo(a.sourceType.value.name, b.sourceType.value.name)
  {
    var result := StringCompareTo(ki.typeString(a.eventType), ki.typeString(b.eventType));
    StringCompareToZero(ki.typeString(a.eventType), ki.typeString(b.eventType));
    if result == 0 then CompareSourceTypes(a.sourceType, b.sourceType) else result
  }

  lemma CompareSourceTypesAntisymmetric(a: Option<Class>, b: Option<Class>)
    ensures CompareSourceTypes(a, b) == -CompareSourceTypes(b, a)
  {
    if a.Some? && b.Some? {
      StringCompareToAntisymmetric(a.value.name, b.value.name);
    }
  }

  /** compareTo is antisymmetric: swapping the keys negates the result. */
  lemma CompareToAntisymmetric(ki: KeyIntrospection, a: ListenerCacheKey, b: ListenerCacheKey)
    ensures CompareTo(ki, a, b) == -CompareTo(ki, b, a)
  {
    StringCompareToAntisymmetric(ki.typeString(a.eventType), ki.typeString(b.eventType));
    CompareSourceTypesAntisymmetric(a.sourceType, b.sourceType);
  }

  /** compareTo returns 0 exactly for keys with the same event-type string and the same source-type name, or both sources null. */
  lemma CompareToZero(ki: KeyIntrospection, a: ListenerCacheKey, b: ListenerCacheKey)
    ensures CompareTo(ki, a, b) == 0 <==>
      ki.typeString(a.eventType) == ki.typeString(b.eventType) &&
      a.sourceType.Some? == b.sourceType.Some? &&
      (a.sourceType.Some? ==> a.sourceType.value.name == b.sourceType.value.name)
  {
    StringCompareToZero(ki.typeString(a.eventType), ki.typeString(b.eventType));
    if a.sourceType.Some? && b.sourceType.Some? {
      StringCompareToZero(a.sourceType.value.name, b.sourceType.value.name);
    }
  }

  /** compareTo is consistent with equals in one direction: equal keys compare as 0. */
  lemma EqualsImpliesCompareToZero(ki: KeyIntrospection, a: ListenerCacheKey, b: ListenerCacheKey)
    requires Equals(a, b)
    ensures CompareTo(ki, a, b) == 0
  {
    CompareToZero(ki, a, b);
  }

  /** The strict order that compareTo defines is transitive. */
  lemma CompareToTransitive(ki: KeyIntrospection, a: ListenerCacheKey, b: ListenerCacheKey, c: ListenerCacheKey)
    requires CompareTo(ki, a, b) < 0 && CompareTo(ki, b, c) < 0
    ensures CompareTo(ki, a, c) < 0
  {
    var ta, tb, tc := ki.typeString(a.eventType), ki.typeString(b.eventType), ki.typeString(c.eventType);
    StringCompareToZero(ta, tb);
    StringCompareToZero(tb, tc);
    StringCompareToZero(ta, tc);
    if StringCompareTo(ta, tb) < 0 && StringCompareTo(tb, tc) < 0 {
      StringCompareToTransitive(ta, tb, tc);
    } else if StringCompareTo(ta, tb) == 0 && StringCompareTo(tb, tc) == 0 {
      var sa, sb, sc := a.sourceType, b.sourceType, c.sourceType;
      if sa.Some? && sb.Some? && sc.Some? {
        StringCompareToTransitive(sa.value.name, sb.value.name, sc.value.name);
      }
    }
  }
}
