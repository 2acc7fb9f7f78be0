# XML Resolver: the `system` catalog entry and the resolver feature registry

This project models two small parts of an XML catalog resolver in Dafny and proves properties about them.

**The `system` catalog entry** (`CatalogEntry`, in `catalog_entry.dfy`). A `system` entry maps a system identifier to a target URI. When the entry is built, its system identifier is put in a normal form: if it starts with `classpath:/`, the slash after `classpath:` is dropped, so `classpath:/p/q` and `classpath:p/q` become the same match key. Any other identifier is stored as given. The entry's type is always `System`. Its text form is `system `, then the stored identifier, then the arrow separator, then the URI. The model proves:

- exactly which identifiers share a key (both directions);
- that normalisation removes only one slash, so it is idempotent exactly for identifiers that do not start with `classpath://`;
- a concrete counterexample to idempotence: `classpath://x`.

**The resolver feature registry** (`Features`, in `features.dfy`). Each feature has a name and a default value. Constructing a feature registers it, under its name, in one shared index that keeps its keys in order (a `TreeMap`). `byName` looks a feature up in the index. `getNames` lists the registered names in ascending order. The twelve features the resolver declares are constructed one after another, in declaration order.

The model is a `FeatureRegistry` class that holds the index as a `map`. The `ResolverFeature` constructor updates that map. `KnownFeatures` performs the twelve registrations. The model proves:

- `GetNames` returns exactly the registered names, strictly ascending and each once;
- that ascending enumeration is unique (`StringOrder.SortedUnique`), so after static initialisation the names come out in one fixed order, `SortedKnownNames`;
- all twelve known names are distinct, and each one finds its own feature.

`StringOrder` (in `string_order.dfy`) defines the key order: `String.compareTo` taken as lexicographic order on characters. It proves that this is a total order. `Optional` holds the `Option` type, which stands in for Java `null`.

`EntrySystem` normalises the system identifier, the match key. The target `uri` is passed to the superclass unchanged (`EntrySystem.java:11`).

## Model

| member | source | states |
|---|---|---|
| `CatalogEntry.NormalizeSystemId` | src/main/java/org/xmlresolver/catalog/entry/EntrySystem.java:13-19 | For an identifier starting with `classpath:/`, the result is the identifier with the slash at position 10 deleted: one character shorter and still starting with `classpath:`. Any other identifier is returned unchanged. The result starts with `classpath:` iff the input does. |
| `CatalogEntry.SlashFormsShareKey` | src/main/java/org/xmlresolver/catalog/entry/EntrySystem.java:13-16 | `classpath:/p` and `classpath:p` normalise to the same key, `classpath:p`, whenever `p` does not start with `/`. |
| `CatalogEntry.SharedKeyIsSlashPair` | src/main/java/org/xmlresolver/catalog/entry/EntrySystem.java:13-19 | The converse: two different identifiers with the same key are always such a pair. One of them is `classpath:/p` and the other is `classpath:p`, with `p` not starting with `/`. |
| `CatalogEntry.NormalizeTwiceIff` | src/main/java/org/xmlresolver/catalog/entry/EntrySystem.java:13-16 | Normalising twice gives the same result as normalising once iff the identifier does not start with `classpath://`, because only one slash is removed. |
| `CatalogEntry.DoubleSlashExample` | src/main/java/org/xmlresolver/catalog/entry/EntrySystem.java:13-16 | `classpath://x` is stored as `classpath:/x`. Normalising that again gives `classpath:x`, which is a different key. |
| `CatalogEntry.NewEntrySystem` | src/main/java/org/xmlresolver/catalog/entry/EntrySystem.java:10-20 | The constructor keeps `id` and `uri` as given. It stores the normalised system identifier: one character shorter for `classpath:/` input, unchanged otherwise. |
| `CatalogEntry.SlashFormsBuildSameEntry` | src/main/java/org/xmlresolver/catalog/entry/EntrySystem.java:10-20 | Entries built from `classpath:/p` and from `classpath:p` (with `p` not starting with `/`) are equal, and both store `classpath:p`. |
| `CatalogEntry.GetType` | src/main/java/org/xmlresolver/catalog/entry/EntrySystem.java:23-25 | A `system` entry always reports the `System` kind. |
| `CatalogEntry.ToString` | src/main/java/org/xmlresolver/catalog/entry/EntrySystem.java:28-30 | The text splits into `system `, the stored (normalised) identifier, the arrow separator and the URI, in that order. Its length is the sum of the four parts. |
| `CatalogEntry.ToStringShowsNormalForm` | src/main/java/org/xmlresolver/catalog/entry/EntrySystem.java:28-30 | An entry built from `classpath:/p` prints its identifier as `classpath:p`. |
| `Features.FeatureRegistry.constructor` | src/main/java/org/xmlresolver/ResolverFeature.java:23 | The shared index starts empty. |
| `Features.ResolverFeature.constructor` | src/main/java/org/xmlresolver/ResolverFeature.java:25-29 | `getName` and `getDefaultValue` return the constructor's arguments. The index afterwards is the old index with `name` mapped to the new feature. Any earlier feature with that name is replaced, no name is removed, and every feature is still filed under its own name. |
| `Features.FeatureRegistry.ByName` | src/main/java/org/xmlresolver/ResolverFeature.java:55-57 | Returns a feature iff the name is registered, and the feature returned has that name. An unregistered name gives `None` (Java `null`). |
| `Features.FeatureRegistry.GetNames` | src/main/java/org/xmlresolver/ResolverFeature.java:64-66 | Returns the registered names in strictly ascending order: every registered name, nothing else, and no name twice. |
| `Features.LastWriterWins` | src/main/java/org/xmlresolver/ResolverFeature.java:25-29 | Constructing two features under one name leaves one key. `byName` returns the later feature, and every other name's lookup is unchanged. |
| `StringOrder.SortedUnique` | src/main/java/org/xmlresolver/ResolverFeature.java:23 | Two strictly ascending name sequences with the same elements are equal, so the sorted key enumeration is fully determined by the key set. |
| `Features.KnownNamesSorted` | src/main/java/org/xmlresolver/ResolverFeature.java:71-223 | `SortedKnownNames`, the twelve declared names, is strictly ascending and holds twelve distinct names. |
| `Features.KnownNamesDistinct` | src/main/java/org/xmlresolver/ResolverFeature.java:71-223 | No declared feature name equals the name of any feature declared after it, so no static registration overwrites another. |
| `Features.KnownFeatures.constructor` | src/main/java/org/xmlresolver/ResolverFeature.java:71-223 | Each of the twelve features has its declared name and default. `catalog-files` and `catalog-additions` default to empty lists. `cache-directory`, `cache` and `catalog-manager` default to null. `prefer-property-file` defaults to false. The other six default to true. The index maps each name to its feature. |
| `Features.KnownFeatures.OnlyKnownNames` | src/main/java/org/xmlresolver/ResolverFeature.java:71-223 | After static initialisation the index holds exactly the twelve declared names. |
| `Features.KnownFeatures.AllRetrievable` | src/main/java/org/xmlresolver/ResolverFeature.java:71-223 | After static initialisation `byName` returns each declared feature for its own name. |
| `Features.KnownFeatures.KnownNames` | src/main/java/org/xmlresolver/ResolverFeature.java:64-66 | After static initialisation `getNames` yields exactly `SortedKnownNames`: `allow-catalog-pi`, `cache`, `cache-directory`, `cache-under-home`, `catalog-additions`, `catalog-files`, `catalog-manager`, `mask-jar-uris`, `merge-https`, `prefer-property-file`, `prefer-public`, `uri-for-system` (each under `http://xmlresolver.org/feature/`). |

## Left out

- The `EntryResource` superclass call (`EntrySystem.java:11`) is not modelled. The configuration and base URI are dropped, and the resolved `uri` is taken as a given string. Resolving against a base URI relies on `java.net.URI`, which is not part of this model.
- `Entry.rarr` (the arrow in `toString`) is defined in `Entry.java`, which is not part of this model. `CatalogEntry.ToString` takes it as a parameter.
- `Entry.Type` is defined in `Entry.java`, which is not part of this model. The variants of `EntryType` other than `System` are an illustrative list of catalog entry kinds, not that enum. Only `System` is used.
- A `null` system identifier makes the Java constructor throw. Dafny strings cannot be null, so that case cannot arise in the model.
- `Features.FeatureRegistry.GetNames` returns a snapshot of the names, not the live key-set iterator of `ResolverFeature.java:64-66`. So two Java behaviours are not modelled. First, the iterator's `remove()` deletes a name from the shared index, so in Java the index can shrink. Second, constructing a feature while a caller iterates makes the iterator's next `next()` throw `ConcurrentModificationException`. The model has no removal, so in the model alone the registry only grows.
- Key order uses Dafny `char` (Unicode scalar values), while Java compares UTF-16 code units. The two orders differ only when supplementary characters are compared with characters in U+E000 to U+FFFF. The twelve declared names are ASCII.
- The shared `index` is a static field in Java. Here it is an explicit `FeatureRegistry` object that each feature constructor receives. Static initialisation order, class loading and thread-safety of the shared `TreeMap` are not modelled. Registration is a sequence of inserts.
- The Java type parameter `T` of a feature is not tracked. Default values are one `FeatureValue` datatype. `ResourceCache` and `CatalogManager` handles are opaque numbers, and `null` is `None`.
- `getName` and `getDefaultValue` are plain accessors (`GetName`, `GetDefaultValue`). What they return is stated by the `ResolverFeature` constructor.
- The behaviour the feature documentation describes is not modelled: http/https merging, jar/classpath masking, catalog processing instructions and choice of cache directory. Only the flags' names and defaults are part of this model.
- `ResolvedResource` is an abstract accessor interface over URIs and input streams. It has no logic to model.
