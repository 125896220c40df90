/** The servlet dispatch kinds of the Scalatra test kit, their bit values,
    the bit mask of a set of kinds, and the name-based conversion of a set of
    kinds into the same-named constants of another enumeration. */
module DispatcherType {
  import opened Wrappers

  /** The five dispatch kinds, in declaration order. */
  datatype Kind = Request | Forward | Include | Error | Async

  /** Position of a kind in the declaration (Java's `ordinal()`). */
  function Ordinal(k: Kind): (i: nat)
    ensures i < 5
  {
    match k
    case Request => 0
    case Forward => 1
    case Include => 2
    case Error => 3
    case Async => 4
  }

  /** The constant's identifier (Java's `name()`). */
  function Name(k: Kind): (s: string)
    ensures |s| > 0
    ensures forall i :: 0 <= i < |s| ==> 'A' <= s[i] <= 'Z'
  {
    match k
    case Request => "REQUEST"
    case Forward => "FORWARD"
    case Include => "INCLUDE"
    case Error => "ERROR"
    case Async => "ASYNC"
  }

  /** The fixed value a kind carries: a single bit, the one at its ordinal. */
  function IntValue(k: Kind): (v: bv32)
    ensures v == 1 << Ordinal(k)
    ensures v != 0 && v & (v - 1) == 0
  {
    match k
    case Request => 1
    case Forward => 2
    case Include => 4
    case Error => 8
    case Async => 16
  }

  lemma IntValueInjective(j: Kind, k: Kind)
    ensures IntValue(j) == IntValue(k) <==> j == k
    ensures j != k ==> IntValue(j) & IntValue(k) == 0
  {
  }

  lemma NameInjective(j: Kind, k: Kind)
    ensures Name(j) == Name(k) <==> j == k
  {
  }

  // ---------------------------------------------------------------------------
  // The bit mask of a set of kinds

  /** The contribution of one kind to the mask of `kinds`. */
  function BitIfIn(kinds: set<Kind>, k: Kind): bv32
  {
    if k in kinds then IntValue(k) else 0
  }

  /** Reference definition of the mask: one bit per kind present. */
  function Mask(kinds: set<Kind>): (m: bv32)
    ensures m < 32
    ensures forall k :: m & IntValue(k) != 0 <==> k in kinds
  {
    BitIfIn(kinds, Request) | BitIfIn(kinds, Forward) | BitIfIn(kinds, Include)
      | BitIfIn(kinds, Error) | BitIfIn(kinds, Async)
  }

  /** The kinds of the one-kind set `{k}` when `k`'s bit is set in `m`. */
  function KindIfSet(m: bv32, k: Kind): set<Kind>
  {
    if m & IntValue(k) != 0 then {k} else {}
  }

  /** The kinds whose bit is set in `m`; the inverse of `Mask`. */
  function KindsOf(m: bv32): (kinds: set<Kind>)
    ensures forall k :: k in kinds <==> m & IntValue(k) != 0
  {
    KindIfSet(m, Request) + KindIfSet(m, Forward) + KindIfSet(m, Include)
      + KindIfSet(m, Error) + KindIfSet(m, Async)
  }

  /** `intValue(Set)`: ORs the value of every kind in the set into an
      accumulator that starts at 0, visiting the kinds in whatever order the
      set's iterator chooses. */
  method IntValueOf(kinds: set<Kind>) returns (value: bv32)
    ensures value == Mask(kinds)
  {
    value := 0;
    var remaining := kinds;
    while remaining != {}
      invariant remaining <= kinds
      invariant value == Mask(kinds - remaining)
      decreases remaining
    {
      var k :| k in remaining;
      MaskAdd(kinds - remaining, k);
      assert (kinds - remaining) + {k} == kinds - (remaining - {k});
      value := value | IntValue(k);
      remaining := remaining - {k};
    }
    assert kinds - remaining == kinds;
  }

  /** One step of the loop: adding a kind ORs its bit into the mask. */
  lemma MaskAdd(kinds: set<Kind>, k: Kind)
    ensures Mask(kinds + {k}) == Mask(kinds) | IntValue(k)
  {
  }

  lemma MaskEmpty()
    ensures Mask({}) == 0
  {
  }

  lemma MaskUnion(a: set<Kind>, b: set<Kind>)
    ensures Mask(a + b) == Mask(a) | Mask(b)
  {
  }

  /** Distinct sets of kinds have distinct masks. */
  lemma MaskInjective(a: set<Kind>, b: set<Kind>)
    ensures Mask(a) == Mask(b) <==> a == b
  {
  }

  /** Decoding a mask gives back the set it was made from. */
  lemma MaskRoundTrip(kinds: set<Kind>)
    ensures KindsOf(Mask(kinds)) == kinds
  {
  }

  /** Every value in 0..31 is the mask of exactly the kinds whose bits it has. */
  lemma KindsOfRoundTrip(m: bv32)
    requires m < 32
    ensures Mask(KindsOf(m)) == m
  {
  }

  lemma MaskExamples()
    ensures Mask({Request}) == 1
    ensures Mask({Request, Async}) == 17
    ensures Mask({Request, Forward, Include, Error, Async}) == 31
  {
  }

  // ---------------------------------------------------------------------------
  // Conversion into another enumeration, looked up by name

  /** The ways `convert` can fail. */
  datatype ConvertError =
    | ClassNotFound(className: string)   // `Class.forName` found no such class
    | NoSuchConstant(name: string)       // the class has no constant of that name
    | EmptyCollection                    // `EnumSet.copyOf` of an empty collection

  /** An enumeration class as a table from constant name to constant. */
  type EnumClass<E> = map<string, E>

  /** The names of a set of kinds. */
  function Names(kinds: set<Kind>): (names: set<string>)
    ensures forall k :: k in kinds <==> Name(k) in names
  {
    set k | k in kinds :: Name(k)
  }

  /** The constants of `target` named like the kinds in `kinds`. */
  function Image<E>(kinds: set<Kind>, target: EnumClass<E>): set<E>
  {
    set k | k in kinds && Name(k) in target :: target[Name(k)]
  }

  /** Distinct constant names denote distinct constants. */
  predicate IsEnum<E(==)>(target: EnumClass<E>)
  {
    forall m, n :: m in target && n in target && m != n ==> target[m] != target[n]
  }

  /** `convert(Set, String)`: resolves the class named `className` among the
      loadable `classes`, looks up each kind's name among its constants in
      whatever order the set's iterator chooses, failing on the first missing
      one, and finally copies the collected constants into an `EnumSet`,
      which refuses an empty collection. */
  method Convert<E>(kinds: set<Kind>, className: string, classes: map<string, EnumClass<E>>)
    returns (r: Result<set<E>, ConvertError>)
    ensures className !in classes ==> r == Failure(ClassNotFound(className))
    ensures className in classes ==>
      (r.Success? <==> kinds != {} && Names(kinds) <= classes[className].Keys)
    ensures r.Success? ==> r.value == Image(kinds, classes[className])
    ensures className in classes && kinds == {} ==> r == Failure(EmptyCollection)
    ensures className in classes && !(Names(kinds) <= classes[className].Keys) ==>
      r.Failure? && r.error.NoSuchConstant?
    ensures r.Failure? && r.error.NoSuchConstant? ==>
      className in classes && r.error.name in Names(kinds) - classes[className].Keys
  {
    if className !in classes {
      return Failure(ClassNotFound(className));
    }
    var target := classes[className];
    var result: set<E> := {};
    var remaining := kinds;
    while remaining != {}
      invariant remaining <= kinds
      invariant Names(kinds - remaining) <= target.Keys
      invariant result == Image(kinds - remaining, target)
      invariant result == {} <==> remaining == kinds
      decreases remaining
    {
      var k :| k in remaining;
      if Name(k) !in target {
        return Failure(NoSuchConstant(Name(k)));
      }
      assert kinds - (remaining - {k}) == (kinds - remaining) + {k};
      result := result + {target[Name(k)]};
      remaining := remaining - {k};
    }
    assert kinds - remaining == kinds;
    if result == {} {
      return Failure(EmptyCollection);
    }
    return Success(result);
  }

  /** In a genuine enumeration, a target constant is collected exactly when
      its name is the name of a source kind. */
  lemma ImageNames<E>(kinds: set<Kind>, target: EnumClass<E>)
    requires IsEnum(target)
    ensures forall n :: n in target ==> (target[n] in Image(kinds, target) <==> n in Names(kinds))
  {
  }

  /** The target's constants are looked up per kind, so the conversion of a
      union is the union of the conversions. */
  lemma ImageUnion<E>(a: set<Kind>, b: set<Kind>, target: EnumClass<E>)
    ensures Image(a + b, target) == Image(a, target) + Image(b, target)
  {
  }

  /** Servlet 3.0's `javax.servlet.DispatcherType`, as a name table. */
  function ServletDispatcherType(): EnumClass<string>
  {
    map["FORWARD" := "FORWARD", "INCLUDE" := "INCLUDE", "REQUEST" := "REQUEST",
        "ASYNC" := "ASYNC", "ERROR" := "ERROR"]
  }

  lemma ImageExample()
    ensures Image({Request, Error}, ServletDispatcherType()) == {"REQUEST", "ERROR"}
  {
  }
}
