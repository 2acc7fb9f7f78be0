/**
 * Resolver features: named configuration options with a default value. Every feature
 * registers itself, by name, in one shared index kept in key order (a `TreeMap`);
 * the index can be searched by name and its names enumerated in ascending order.
 *
 * The Java index is a static field; here it is an explicit `FeatureRegistry` object
 * handed to each feature's constructor, and the twelve static feature constants are
 * the fields of `KnownFeatures`, whose constructor registers them in declaration order.
 */
module Features {
  import opened Optional
  import opened StringOrder

  /**
   * The default values features carry: booleans, lists of strings, possibly-null strings
   * and possibly-null handles on a resource cache or a catalog manager (opaque identities).
   */
  datatype FeatureValue =
    | BoolValue(flag: bool)
    | StringListValue(items: seq<string>)
    | StringValue(text: Option<string>)
    | CacheValue(cache: Option<nat>)
    | ManagerValue(manager: Option<nat>)

  /** The shared, name-keyed index of every feature constructed so far. */
  class FeatureRegistry {
    var index: map<string, ResolverFeature>

    /** Every feature is filed under its own name. */
    ghost predicate Valid()
      reads this
    {
      forall n :: n in index ==> index[n].name == n
    }

    constructor ()
      ensures Valid() && index == map[]
    {
      index := map[];
    }

    /** `byName`: the feature registered under `name`, or none if no feature has that name. */
    function ByName(name: string): (r: Option<ResolverFeature>)
      reads this
      requires Valid()
      ensures r.Some? <==> name in index
      ensures r.Some? ==> r.value.name == name && r.value == index[name]
    {
      if name in index then Some(index[name]) else None
    }

    /**
     * `getNames`: the registered names in ascending order, each once. The map's keys are
     * taken out least first, which is the order a TreeMap's key set iterates in.
     */
    method GetNames() returns (names: seq<string>)
      ensures StrictlySorted(names)
      ensures Elements(names) == index.Keys
      ensures |names| == |index|
    {
      names := [];
      var rest := index.Keys;
      while rest != {}
        invariant Elements(names) + rest == index.Keys
        invariant |names| + |rest| == |index|
        invariant StrictlySorted(names)
        invariant forall i, y :: 0 <= i < |names| && y in rest ==> Lt(names[i], y)
        decreases |rest|
      {
        LeastExists(rest);
        var m :| IsLeast(m, rest);
        TakeLeast(names, rest, m);
        names := names + [m];
        rest := rest - {m};
      }
    }
  }

  /** One feature: its name and default value, fixed when it is constructed. */
  class ResolverFeature {
    const name: string
    const defaultValue: FeatureValue

    /**
     * Constructing a feature registers it in `registry` under its name, replacing any
     * feature registered under that name before. This model has no removal, so here the
     * registry only grows.
     */
    constructor (registry: FeatureRegistry, name: string, defaultValue: FeatureValue)
      requires registry.Valid()
      modifies registry
      ensures this.name == name && this.defaultValue == defaultValue
      ensures GetName() == name && GetDefaultValue() == defaultValue
      ensures registry.Valid()
      ensures registry.index == old(registry.index)[name := this]
      ensures old(registry.index).Keys <= registry.index.Keys
    {
      this.name := name;
      this.defaultValue := defaultValue;
      new;
      registry.index := registry.index[name := this];
    }

    /** `getName` */
    function GetName(): (r: string)
    {
      name
    }

    /** `getDefaultValue` */
    function GetDefaultValue(): (r: FeatureValue)
    {
      defaultValue
    }
  }

  /** Two features constructed under one name: the index keeps one entry, the later feature. */
  method LastWriterWins(registry: FeatureRegistry, name: string, first: FeatureValue, second: FeatureValue)
    returns (older: ResolverFeature, newer: ResolverFeature)
    requires registry.Valid()
    modifies registry
    ensures registry.Valid()
    ensures older != newer && older.defaultValue == first && newer.defaultValue == second
    ensures registry.ByName(name) == Some(newer)
    ensures forall n :: n != name ==> registry.ByName(n) == old(registry.ByName(n))
    ensures registry.index.Keys == old(registry.index).Keys + {name}
  {
    older := new ResolverFeature(registry, name, first);
    newer := new ResolverFeature(registry, name, second);
  }

  // The names of the known features all live under one namespace.
  const FeatureNamespace: string := "http://xmlresolver.org/feature/"

  const CatalogFilesName: string := FeatureNamespace + "catalog-files"
  const CatalogAdditionsName: string := FeatureNamespace + "catalog-additions"
  const PreferPublicName: string := FeatureNamespace + "prefer-public"
  const PreferPropertyFileName: string := FeatureNamespace + "prefer-property-file"
  const AllowCatalogPiName: string := FeatureNamespace + "allow-catalog-pi"
  const CacheDirectoryName: string := FeatureNamespace + "cache-directory"
  const CacheUnderHomeName: string := FeatureNamespace + "cache-under-home"
  const CacheName: string := FeatureNamespace + "cache"
  const CatalogManagerName: string := FeatureNamespace + "catalog-manager"
  const UriForSystemName: string := FeatureNamespace + "uri-for-system"
  const MergeHttpsName: string := FeatureNamespace + "merge-https"
  const MaskJarUrisName: string := FeatureNamespace + "mask-jar-uris"

  /** The twelve known names in ascending order: the order `getNames` reports them in. */
  const SortedKnownNames: seq<string> := [
    AllowCatalogPiName,
    CacheName,
    CacheDirectoryName,
    CacheUnderHomeName,
    CatalogAdditionsName,
    CatalogFilesName,
    CatalogManagerName,
    MaskJarUrisName,
    MergeHttpsName,
    PreferPropertyFileName,
    PreferPublicName,
    UriForSystemName
  ]

  /** The parts of the known names after the namespace, in ascending order. */
  const KnownSuffixes: seq<string> := [
    "allow-catalog-pi", "cache", "cache-directory", "cache-under-home",
    "catalog-additions", "catalog-files", "catalog-manager", "mask-jar-uris",
    "merge-https", "prefer-property-file", "prefer-public", "uri-for-system"
  ]

  /** Each known suffix sorts before the next one. */
  lemma SuffixStep(i: nat)
    requires i < 11
    ensures Lt(KnownSuffixes[i], KnownSuffixes[i + 1])
  {
    var a, b := KnownSuffixes[i], KnownSuffixes[i + 1];
    if i == 1 {
      PrefixIsLess(a, b);
    } else {
      // the position of the first differing character
      var k := if i == 2 then 6 else if i == 3 then 2 else if i == 4 || i == 5 || i == 9 then 8 else if i == 7 then 1 else 0;
      FirstDifferenceDecides(a, b, k);
    }
  }

  /** The known names really are in ascending order, hence pairwise distinct. */
  lemma KnownNamesSorted()
    ensures StrictlySorted(SortedKnownNames)
    ensures |Elements(SortedKnownNames)| == 12
  {
    assert forall i :: 0 <= i < 12 ==> SortedKnownNames[i] == FeatureNamespace + KnownSuffixes[i];
    forall i | 0 <= i < 11
      ensures Lt(SortedKnownNames[i], SortedKnownNames[i + 1])
    {
      SuffixStep(i);
      CommonPrefix(FeatureNamespace, KnownSuffixes[i], KnownSuffixes[i + 1]);
    }
    AdjacentSorted(SortedKnownNames);
    DistinctCardinality(SortedKnownNames);
  }

  /** No known name is registered again by a later declaration. */
  lemma KnownNamesDistinct()
    ensures CatalogFilesName !in {CatalogAdditionsName, PreferPublicName, PreferPropertyFileName,
        AllowCatalogPiName, CacheDirectoryName, CacheUnderHomeName, CacheName, CatalogManagerName,
        UriForSystemName, MergeHttpsName, MaskJarUrisName}
    ensures CatalogAdditionsName !in {PreferPublicName, PreferPropertyFileName, AllowCatalogPiName,
        CacheDirectoryName, CacheUnderHomeName, CacheName, CatalogManagerName, UriForSystemName,
        MergeHttpsName, MaskJarUrisName}
    ensures PreferPublicName !in {PreferPropertyFileName, AllowCatalogPiName, CacheDirectoryName,
        CacheUnderHomeName, CacheName, CatalogManagerName, UriForSystemName, MergeHttpsName,
        MaskJarUrisName}
    ensures PreferPropertyFileName !in {AllowCatalogPiName, CacheDirectoryName, CacheUnderHomeName,
        CacheName, CatalogManagerName, UriForSystemName, MergeHttpsName, MaskJarUrisName}
    ensures AllowCatalogPiName !in {CacheDirectoryName, CacheUnderHomeName, CacheName,
        CatalogManagerName, UriForSystemName, MergeHttpsName, MaskJarUrisName}
    ensures CacheDirectoryName !in {CacheUnderHomeName, CacheName, CatalogManagerName,
        UriForSystemName, MergeHttpsName, MaskJarUrisName}
    ensures CacheUnderHomeName !in {CacheName, CatalogManagerName, UriForSystemName,
        MergeHttpsName, MaskJarUrisName}
    ensures CacheName !in {CatalogManagerName, UriForSystemName, MergeHttpsName, MaskJarUrisName}
    ensures CatalogManagerName !in {UriForSystemName, MergeHttpsName, MaskJarUrisName}
    ensures UriForSystemName !in {MergeHttpsName, MaskJarUrisName}
    ensures MergeHttpsName !in {MaskJarUrisName}
  {
    KnownNamesSorted();
    var names := SortedKnownNames;
    StrictlySortedDistinct(names);
    assert
      && names[0] == AllowCatalogPiName
      && names[1] == CacheName
      && names[2] == CacheDirectoryName
      && names[3] == CacheUnderHomeName
      && names[4] == CatalogAdditionsName
      && names[5] == CatalogFilesName
      && names[6] == CatalogManagerName
      && names[7] == MaskJarUrisName
      && names[8] == MergeHttpsName
      && names[9] == PreferPropertyFileName
      && names[10] == PreferPublicName
      && names[11] == UriForSystemName;
  }

  /** A strictly ascending sequence has as many elements as its set. */
  lemma {:induction false} DistinctCardinality(s: seq<string>)
    requires StrictlySorted(s)
    ensures |Elements(s)| == |s|
  {
    if s != [] {
      TailSet(s);
      assert StrictlySorted(s[1..]) by {
        forall i, j | 0 <= i < j < |s[1..]| ensures Lt(s[1..][i], s[1..][j]) { assert Lt(s[i + 1], s[j + 1]); }
      }
      DistinctCardinality(s[1..]);
      assert s[0] in Elements(s);
    }
  }

  /**
   * The twelve features the resolver knows, constructed (and so registered) in
   * declaration order into one shared registry.
   */
  class KnownFeatures {
    const registry: FeatureRegistry
    const CatalogFiles: ResolverFeature
    const CatalogAdditions: ResolverFeature
    const PreferPublic: ResolverFeature
    const PreferPropertyFile: ResolverFeature
    const AllowCatalogPi: ResolverFeature
    const CacheDirectory: ResolverFeature
    const CacheUnderHome: ResolverFeature
    const Cache: ResolverFeature
    const CatalogManager: ResolverFeature
    const UriForSystem: ResolverFeature
    const MergeHttps: ResolverFeature
    const MaskJarUris: ResolverFeature

    /** The registry holds exactly the twelve features, each under its own name. */
    ghost predicate Registered()
      reads registry
    {
      && registry.Valid()
      && registry.index == map[
          CatalogFilesName := CatalogFiles,
          CatalogAdditionsName := CatalogAdditions,
          PreferPublicName := PreferPublic,
          PreferPropertyFileName := PreferPropertyFile,
          AllowCatalogPiName := AllowCatalogPi,
          CacheDirectoryName := CacheDirectory,
          CacheUnderHomeName := CacheUnderHome,
          CacheName := Cache,
          CatalogManagerName := CatalogManager,
          UriForSystemName := UriForSystem,
          MergeHttpsName := MergeHttps,
          MaskJarUrisName := MaskJarUris
        ]
    }

    constructor ()
      ensures fresh(registry) && registry.Valid()
      ensures CatalogFiles.name == CatalogFilesName && CatalogFiles.defaultValue == StringListValue([])
      ensures CatalogAdditions.name == CatalogAdditionsName && CatalogAdditions.defaultValue == StringListValue([])
      ensures PreferPublic.name == PreferPublicName && PreferPublic.defaultValue == BoolValue(true)
      ensures PreferPropertyFile.name == PreferPropertyFileName && PreferPropertyFile.defaultValue == BoolValue(false)
      ensures AllowCatalogPi.name == AllowCatalogPiName && AllowCatalogPi.defaultValue == BoolValue(true)
      ensures CacheDirectory.name == CacheDirectoryName && CacheDirectory.defaultValue == StringValue(None)
      ensures CacheUnderHome.name == CacheUnderHomeName && CacheUnderHome.defaultValue == BoolValue(true)
      ensures Cache.name == CacheName && Cache.defaultValue == CacheValue(None)
      ensures CatalogManager.name == CatalogManagerName && CatalogManager.defaultValue == ManagerValue(None)
      ensures UriForSystem.name == UriForSystemName && UriForSystem.defaultValue == BoolValue(true)
      ensures MergeHttps.name == MergeHttpsName && MergeHttps.defaultValue == BoolValue(true)
      ensures MaskJarUris.name == MaskJarUrisName && MaskJarUris.defaultValue == BoolValue(true)
      ensures Registered()
    {
      var r := new FeatureRegistry();
      var catalogFiles := new ResolverFeature(r, CatalogFilesName, StringListValue([]));
      var catalogAdditions := new ResolverFeature(r, CatalogAdditionsName, StringListValue([]));
      var preferPublic := new ResolverFeature(r, PreferPublicName, BoolValue(true));
      var preferPropertyFile := new ResolverFeature(r, PreferPropertyFileName, BoolValue(false));
      var allowCatalogPi := new ResolverFeature(r, AllowCatalogPiName, BoolValue(true));
      var cacheDirectory := new ResolverFeature(r, CacheDirectoryName, StringValue(None));
      var cacheUnderHome := new ResolverFeature(r, CacheUnderHomeName, BoolValue(true));
      var cache := new ResolverFeature(r, CacheName, CacheValue(None));
      var catalogManager := new ResolverFeature(r, CatalogManagerName, ManagerValue(None));
      var uriForSystem := new ResolverFeature(r, UriForSystemName, BoolValue(true));
      var mergeHttps := new ResolverFeature(r, MergeHttpsName, BoolValue(true));
      var maskJarUris := new ResolverFeature(r, MaskJarUrisName, BoolValue(true));
      registry := r;
      CatalogFiles := catalogFiles;
      CatalogAdditions := catalogAdditions;
      PreferPublic := preferPublic;
      PreferPropertyFile := preferPropertyFile;
      AllowCatalogPi := allowCatalogPi;
      CacheDirectory := cacheDirectory;
      CacheUnderHome := cacheUnderHome;
      Cache := cache;
      CatalogManager := catalogManager;
      UriForSystem := uriForSystem;
      MergeHttps := mergeHttps;
      MaskJarUris := maskJarUris;
    }

    /** After static initialisation the registry holds exactly the twelve known names. */
    lemma OnlyKnownNames()
      requires Registered()
      ensures registry.index.Keys == Elements(SortedKnownNames)
      ensures |registry.index| == 12
    {
      KnownNamesSorted();
      var names := SortedKnownNames;
      assert
        && names[0] == AllowCatalogPiName
        && names[1] == CacheName
        && names[2] == CacheDirectoryName
        && names[3] == CacheUnderHomeName
        && names[4] == CatalogAdditionsName
        && names[5] == CatalogFilesName
        && names[6] == CatalogManagerName
        && names[7] == MaskJarUrisName
        && names[8] == MergeHttpsName
        && names[9] == PreferPropertyFileName
        && names[10] == PreferPublicName
        && names[11] == UriForSystemName;
    }

    /** After static initialisation every known feature is retrievable by its name. */
    lemma AllRetrievable()
      requires Registered()
      ensures registry.ByName(CatalogFilesName) == Some(CatalogFiles)
      ensures registry.ByName(CatalogAdditionsName) == Some(CatalogAdditions)
      ensures registry.ByName(PreferPublicName) == Some(PreferPublic)
      ensures registry.ByName(PreferPropertyFileName) == Some(PreferPropertyFile)
      ensures registry.ByName(AllowCatalogPiName) == Some(AllowCatalogPi)
      ensures registry.ByName(CacheDirectoryName) == Some(CacheDirectory)
      ensures registry.ByName(CacheUnderHomeName) == Some(CacheUnderHome)
      ensures registry.ByName(CacheName) == Some(Cache)
      ensures registry.ByName(CatalogManagerName) == Some(CatalogManager)
      ensures registry.ByName(UriForSystemName) == Some(UriForSystem)
      ensures registry.ByName(MergeHttpsName) == Some(MergeHttps)
      ensures registry.ByName(MaskJarUrisName) == Some(MaskJarUris)
    {
      KnownNamesDistinct();
    }

    /** `getNames` after static initialisation: the twelve known names, in ascending order. */
    method KnownNames() returns (names: seq<string>)
      requires Registered()
      ensures names == SortedKnownNames
    {
      names := registry.GetNames();
      OnlyKnownNames();
      KnownNamesSorted();
      SortedUnique(names, SortedKnownNames);
    }
  }
}
