# ServiceTestResult in Dafny

A model of `ServiceTestResult`, the read-only object that holds what one
"render a service" test run produced: the resolved service specification, the
raw (unresolved) specification, the scheduler's launch environment, and the
rendered config files of the service's tasks. Each rendered config is a
`TaskConfig` keyed by the triple (pod type, task name, config name).

- `decimal.dfy` (module `Decimal`): base-10 rendering of a length in ASCII
  digits, as Java's `%d` prints a non-negative `int` in a locale that uses the
  digits `0`-`9`, with its inverse `Value`.
- `service_test_result.dfy` (module `ServiceTesting`):
  - `TaskConfig` is a datatype. `TaskConfig.ToString` is the diagnostic form
    `pod-task: config (N bytes)`.
  - `ServiceTestResult<Spec, RawSpec>` is a class whose fields are all `const`,
    standing for Java's `final` fields. The two specifications are opaque type
    parameters. The accessors are functions of those fields. The map and the
    entries are values here, whereas the Java fields hold references shared with
    the object's creator and callers (see "Left out").
  - `GetTaskConfig` is a method with a `while` loop, as the Java for-each loop
    with its early `return` is. It has no `modifies` clause, so it changes
    nothing. Its result is proved equal to the pure function `Lookup`, which is
    built on `FirstMatch`, the index of the first entry with the key.
  - The `IllegalArgumentException` becomes `LookupResult.NotFound(ConfigNotFound(...))`.
    The error value carries the three requested keys and the rendering of every
    stored entry, in iteration order. `ConfigNotFound.Header` is the message
    text the format string produces before the listing.
  - The Java `Collection` of entries is a `seq`, in iteration order.

Two facts about the code that the model keeps:

- `getSchedulerEnvironment` returns the stored map itself, with no copy.
- N in the diagnostic is `String.length()` of the content, not a byte count.
  The model uses the length of the content sequence.

## Model

| member | source | states |
|---|---|---|
| `ServiceTesting.ServiceTestResult.constructor` | sdk/testing/src/main/java/com/mesosphere/sdk/testing/ServiceTestResult.java:41-50 | the three accessors return exactly the constructor's arguments, and the entries are stored unchanged |
| `ServiceTesting.ServiceTestResult.GetServiceSpec` | sdk/testing/src/main/java/com/mesosphere/sdk/testing/ServiceTestResult.java:55-57 | returns the stored resolved specification; that it is the constructor's argument, the same on every call, is carried by the constructor's contract and the `const` field |
| `ServiceTesting.ServiceTestResult.GetRawServiceSpec` | sdk/testing/src/main/java/com/mesosphere/sdk/testing/ServiceTestResult.java:62-64 | returns the stored raw specification; that it is the constructor's argument, the same on every call, is carried by the constructor's contract and the `const` field |
| `ServiceTesting.ServiceTestResult.GetSchedulerEnvironment` | sdk/testing/src/main/java/com/mesosphere/sdk/testing/ServiceTestResult.java:69-71 | returns the stored environment map itself, with no copy; that it is the constructor's argument is carried by the constructor's contract and the `const` field |
| `ServiceTesting.ServiceTestResult.GetTaskConfig` | sdk/testing/src/main/java/com/mesosphere/sdk/testing/ServiceTestResult.java:77-88 | the linear scan with early return and failure after the loop computes exactly `Lookup` of the stored entries, and writes nothing |
| `ServiceTesting.FirstMatch` | sdk/testing/src/main/java/com/mesosphere/sdk/testing/ServiceTestResult.java:78-84 | the index found has the key and no earlier entry has it; no index is found only when no entry has the key |
| `ServiceTesting.Lookup` | sdk/testing/src/main/java/com/mesosphere/sdk/testing/ServiceTestResult.java:77-88 | succeeds exactly when some entry has all three key components, and then yields the first such entry's content; a failure carries the three keys and one rendering per stored entry, in order |
| `ServiceTesting.LookupRoundTrip` | sdk/testing/src/main/java/com/mesosphere/sdk/testing/ServiceTestResult.java:78-82 | an entry that is the first with its key is found, with its own content, by looking up that key |
| `ServiceTesting.LookupRoundTripUniqueKeys` | sdk/testing/src/main/java/com/mesosphere/sdk/testing/ServiceTestResult.java:78-82 | when the keys are distinct, looking up any stored entry's key returns that entry's content |
| `ServiceTesting.LaterDuplicateNeverReturned` | sdk/testing/src/main/java/com/mesosphere/sdk/testing/ServiceTestResult.java:78-82 | an entry preceded by another with the same key is never the match (first match wins) |
| `ServiceTesting.NonMatchingEntryIgnored` | sdk/testing/src/main/java/com/mesosphere/sdk/testing/ServiceTestResult.java:79-81 | an entry differing from the requested key in any component has no effect on whether the lookup succeeds or on the content returned |
| `ServiceTesting.TaskConfig.HasKey` | sdk/testing/src/main/java/com/mesosphere/sdk/testing/ServiceTestResult.java:79-81 | an entry has a key exactly when its three key fields are that key, with no normalisation of any component |
| `ServiceTesting.MismatchNeverFound` | sdk/testing/src/main/java/com/mesosphere/sdk/testing/ServiceTestResult.java:79-81 | in any collection, an entry whose key differs from the requested one in any single component is never the match |
| `ServiceTesting.DifferentKeyNotFound` | sdk/testing/src/main/java/com/mesosphere/sdk/testing/ServiceTestResult.java:78-87 | a lone entry is not found under any key that differs from its own in some component, and the failure lists that entry's rendering |
| `ServiceTesting.LookupIsCaseSensitive` | sdk/testing/src/main/java/com/mesosphere/sdk/testing/ServiceTestResult.java:79-81 | one example of case sensitivity: an entry stored under `pod` is not found by `Pod` |
| `ServiceTesting.LookupFailsIffNoMatch` | sdk/testing/src/main/java/com/mesosphere/sdk/testing/ServiceTestResult.java:78-87 | the lookup fails if and only if no entry has the key, and the failure holds the keys and all renderings |
| `ServiceTesting.EmptyLookupFails` | sdk/testing/src/main/java/com/mesosphere/sdk/testing/ServiceTestResult.java:78-87 | with no entries every lookup fails, with an empty listing of known configs |
| `ServiceTesting.ConfigNotFound.Header` | sdk/testing/src/main/java/com/mesosphere/sdk/testing/ServiceTestResult.java:85-86 | the message text contains the requested pod type, task name and config name verbatim |
| `ServiceTesting.Renderings` | sdk/testing/src/main/java/com/mesosphere/sdk/testing/ServiceTestResult.java:87 | the listing has one rendering per entry, in iteration order |
| `ServiceTesting.RenderingReportsLength` | sdk/testing/src/main/java/com/mesosphere/sdk/testing/ServiceTestResult.java:31-33 | for entries with the same key, the renderings agree exactly when the contents have the same length: the rendering depends on the content only through its length |
| `ServiceTesting.TaskConfig.ToString` | sdk/testing/src/main/java/com/mesosphere/sdk/testing/ServiceTestResult.java:30-33 | an entry renders as `pod-task: config (N bytes)`, where N is canonical decimal digits whose value is the content's length (with `RenderingReportsLength`: the rendering depends on the content only through its length) |
| `ServiceTesting.WebServerFound` | sdk/testing/src/main/java/com/mesosphere/sdk/testing/ServiceTestResult.java:78-82 | with entries app.conf (`PORT=80`) and log.conf (`LEVEL=info`) of web/server, app.conf yields `PORT=80` |
| `ServiceTesting.WebServerMissing` | sdk/testing/src/main/java/com/mesosphere/sdk/testing/ServiceTestResult.java:85-87 | in the same setting, missing.conf fails with the keys and the listing `web-server: app.conf (7 bytes)`, `web-server: log.conf (10 bytes)` |
| `Decimal.FromNat` | sdk/testing/src/main/java/com/mesosphere/sdk/testing/ServiceTestResult.java:32 | `%d` of a length is a non-empty digit string with no leading zero, starting with `0` only for zero |
| `Decimal.ValueOfFromNat` | sdk/testing/src/main/java/com/mesosphere/sdk/testing/ServiceTestResult.java:32 | reading the printed digits back gives the length that was printed |
| `Decimal.FromNatInjective` | sdk/testing/src/main/java/com/mesosphere/sdk/testing/ServiceTestResult.java:32 | different lengths are printed differently |

## Left out

- `ServiceSpec` and `RawServiceSpec` internals: foreign types that are only stored and returned, so they are opaque type parameters.
- `ServiceTestBuilder`, which parses, renders and does I/O to produce the inputs, is not part of this model.
- The exact layout of the `Collection`'s own `toString` in the failure message (brackets, commas) comes from the Java collection library. The model keeps the listing as the sequence of per-entry renderings, and `ConfigNotFound.Header` is the text before it.
- Exceptions are modelled as the `NotFound` result value. Java's `null` is not modelled, and Dafny strings are never null. In Java a null requested key never matches, so the lookup ends in the `IllegalArgumentException` with `null` printed in its message. A null entry, a null stored key field that the `&&` chain reaches, or a null `configContent` on the failure path (`length()` in `toString`) throws a `NullPointerException`. A null `configContent` of the matched entry is returned as null. A null stored key field the chain never reaches is printed as `null` in the listing. A null specification or environment field is simply returned by its accessor.
- `TaskConfig.ToString`: N is the length of the content sequence. The UTF-16 code-unit count of Java's `String.length()` is not distinguished from a character count.
- Java's `int` bound on the length is not modelled: lengths are unbounded naturals.
- Constructor / GetSchedulerEnvironment: the Java object shares the map and the collection with its creator and callers, so mutating them changes later accessor and `getTaskConfig` results; the model's value fields do not capture this aliasing.
- Decimal.FromNat: `String.format` uses the default locale, which may print other digit characters; the model assumes a default locale whose digits are the ASCII `0`-`9`.
