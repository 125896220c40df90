# Scalatra test kit: servlet dispatch kinds

A Dafny model of `DispatcherType`, the dispatch-kind enumeration in Scalatra's
test kit. It has three parts:

- **Kinds and bits.** There are five kinds: REQUEST, FORWARD, INCLUDE, ERROR
  and ASYNC. Each carries a fixed bit value (1, 2, 4, 8, 16).
- **Mask.** `intValue(Set)` folds a set of kinds into an `int` mask with
  bitwise OR.
- **Conversion.** `convert(Set, String)` turns a set of kinds into the
  same-named constants of another enumeration, whose class is named at run
  time. That class is typically the servlet container's own
  `javax.servlet.DispatcherType`.

All of it is in `dispatcher_type.dfy`, in module `DispatcherType`. The
`Result` type used for the conversion's failures is in `wrappers.dfy`.

How the model represents the Java code:

- **The Java `int`** is a `bv32`. Every mask is below 32, so signedness never
  matters.
- **Set iteration.** Both loops visit the kinds in whatever order the set's
  iterator chooses. The model picks each next kind with `:|` (an arbitrary
  choice), so every postcondition holds for every iteration order.
- **The reflective lookup.** `Class.forName` is modelled as lookup in a map
  `classes` from fully-qualified class name to the class's constant table.
  `Enum.valueOf` is modelled as lookup in that table, a map from constant name
  to constant.
- **The three exceptions** become three error values: `ClassNotFound`,
  `NoSuchConstant` and `EmptyCollection`. `EmptyCollection` models
  `EnumSet.copyOf` refusing an empty `HashSet`.

## Model

| member | source | states |
|---|---|---|
| `DispatcherType.Ordinal` | test/src/main/java/org/scalatra/test/DispatcherType.java:7-11 | each kind's declaration position is one of the five positions 0..4 |
| `DispatcherType.Name` | test/src/main/java/org/scalatra/test/DispatcherType.java:7-11 | each kind's name is its Java constant identifier, a non-empty run of upper-case letters |
| `DispatcherType.IntValue` | test/src/main/java/org/scalatra/test/DispatcherType.java:7-21 | each kind's value is a single set bit (a power of two), the one at the kind's declaration position |
| `DispatcherType.IntValueInjective` | test/src/main/java/org/scalatra/test/DispatcherType.java:7-11 | two kinds have equal values exactly when they are the same kind; distinct kinds share no bit |
| `DispatcherType.NameInjective` | test/src/main/java/org/scalatra/test/DispatcherType.java:7-11 | two kinds have the same constant name exactly when they are the same kind |
| `DispatcherType.Mask` | test/src/main/java/org/scalatra/test/DispatcherType.java:23-29 | the mask of a set lies in 0..31, and the bit of kind k is set exactly when k is in the set |
| `DispatcherType.KindsOf` | test/src/main/java/org/scalatra/test/DispatcherType.java:23-29 | decoding a mask yields exactly the kinds whose bits are set in it |
| `DispatcherType.IntValueOf` | test/src/main/java/org/scalatra/test/DispatcherType.java:23-29 | the loop that starts at 0 and ORs in each member's value ends with the one-bit-per-member mask, whatever the iteration order |
| `DispatcherType.MaskAdd` | test/src/main/java/org/scalatra/test/DispatcherType.java:26 | ORing one more kind's value into the accumulator gives the mask of the enlarged set |
| `DispatcherType.MaskEmpty` | test/src/main/java/org/scalatra/test/DispatcherType.java:24-28 | the mask of the empty set is 0 |
| `DispatcherType.MaskUnion` | test/src/main/java/org/scalatra/test/DispatcherType.java:23-29 | the mask of a union is the OR of the two masks |
| `DispatcherType.MaskInjective` | test/src/main/java/org/scalatra/test/DispatcherType.java:23-29 | two sets have equal masks exactly when they are equal sets |
| `DispatcherType.MaskRoundTrip` | test/src/main/java/org/scalatra/test/DispatcherType.java:23-29 | decoding the mask of a set gives back that set |
| `DispatcherType.KindsOfRoundTrip` | test/src/main/java/org/scalatra/test/DispatcherType.java:7-11 | every value in 0..31 is the mask of the kinds whose bits it has, so the five bits cover 0..31 exactly |
| `DispatcherType.MaskExamples` | test/src/main/java/org/scalatra/test/DispatcherType.java:23-29 | {REQUEST} gives 1, {REQUEST, ASYNC} gives 17, all five kinds give 31 |
| `DispatcherType.Names` | test/src/main/java/org/scalatra/test/DispatcherType.java:38-40 | a kind is in the set exactly when its name is among the names looked up |
| `DispatcherType.Convert` | test/src/main/java/org/scalatra/test/DispatcherType.java:32-43 | the three failures and the one success, in both directions. An unresolvable class name fails with ClassNotFound, even for an empty set. Otherwise the call succeeds exactly when the set is non-empty and the class defines every kind's name. The result is then exactly the target constants named after the kinds. An empty set fails with EmptyCollection. A missing name fails with NoSuchConstant, naming a kind's name that is absent, and returns no partial set |
| `DispatcherType.ImageNames` | test/src/main/java/org/scalatra/test/DispatcherType.java:36-42 | when the target is an enumeration (distinct names denote distinct constants), a target constant is in the result exactly when its name is the name of a source kind |
| `DispatcherType.ImageUnion` | test/src/main/java/org/scalatra/test/DispatcherType.java:38-41 | the constants collected for a union of sets are the union of the constants collected for each |
| `DispatcherType.ImageExample` | test/src/main/java/org/scalatra/test/DispatcherType.java:38-42 | against the servlet dispatch-kind names, {REQUEST, ERROR} gives the constants REQUEST and ERROR |

## Left out

- `core/src/main/java/org/scalatra/servlet/ServletContextWrapper.java` is not part of this model. Every method forwards in one line to a `javax.servlet.ServletContext`, whose behaviour is not visible here. The constructor does not reject a null context (lines 16-18), so no null check is claimed.
- The swagger and spring annotation types (`ApiModelProperty`, `ApiProperty`, `ApiModel`, `Path`) are not modelled. They are declarative metadata with no behaviour; `ApiModelProperty`'s defaults are also floating-point NaN.
- `example/src/main/webapp/jquery/application.js` is browser and websocket UI code and is not modelled.
- Null arguments are not modelled. A null set, a null element or a null class name throws `NullPointerException`. In `convert`, a null set or element fails only after the class has resolved.
- The exact exception classes are not modelled. The Java code throws `ClassNotFoundException`, and a missing constant's `IllegalArgumentException` arrives wrapped in `InvocationTargetException` by `MethodUtils`. The model has one error value per cause instead.
- A class that resolves but is not an enumeration is modelled as a constant table that lacks the looked-up names. Java reports this case with a different `IllegalArgumentException` message.
- Convert: which missing name is reported depends on the iteration order. The contract promises only that it is some kind's name the target lacks.
