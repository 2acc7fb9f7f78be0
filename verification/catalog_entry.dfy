/**
 * The `system` catalog entry: a system identifier mapped to an (already resolved) target URI.
 * The entry stores its system identifier in a normal form in which `classpath:/p` and
 * `classpath:p` are the same match key.
 */
module CatalogEntry {
  import opened Optional

  /** The kinds of catalog entry (the entry model's `Type`). */
  datatype EntryType =
    | System | Public | Uri
    | SystemSuffix | UriSuffix
    | RewriteSystem | RewriteUri
    | DelegatePublic | DelegateSystem | DelegateUri
    | NextCatalog | Group

  const ClasspathSlash: string := "classpath:/"
  const Classpath: string := "classpath:"

  /** Java's `s.startsWith(p)`. */
  predicate StartsWith(s: string, p: string)
  {
    |p| <= |s| && s[..|p|] == p
  }

  /**
   * The normal form the entry stores: a leading `classpath:/` loses its slash,
   * every other identifier is kept as given.
   */
  function NormalizeSystemId(systemId: string): (r: string)
    // the slash right after "classpath:" (position 10) is deleted and nothing else changes
    ensures StartsWith(systemId, ClasspathSlash) ==>
              |r| == |systemId| - 1 && r == systemId[..10] + systemId[11..] && StartsWith(r, Classpath)
    ensures !StartsWith(systemId, ClasspathSlash) ==> r == systemId
    // the classpath scheme is neither gained nor lost
    ensures StartsWith(r, Classpath) <==> StartsWith(systemId, Classpath)
  {
    if StartsWith(systemId, ClasspathSlash) then Classpath + systemId[|ClasspathSlash|..] else systemId
  }

  /** `classpath:/p` and `classpath:p` give the same key, provided `p` does not itself start with a slash. */
  lemma SlashFormsShareKey(p: string)
    requires !StartsWith(p, "/")
    ensures NormalizeSystemId(ClasspathSlash + p) == NormalizeSystemId(Classpath + p)
    ensures NormalizeSystemId(Classpath + p) == Classpath + p
  {
    assert (ClasspathSlash + p)[..11] == ClasspathSlash;
    assert (ClasspathSlash + p)[11..] == p;
    if p != [] {
      assert (Classpath + p)[10] == p[0];
      assert p[..1] == [p[0]];
    }
  }

  /**
   * The converse: two different identifiers share a key only when they are the pair
   * `classpath:/p` and `classpath:p` with `p` not starting with a slash.
   */
  lemma SharedKeyIsSlashPair(a: string, b: string)
    requires a != b && NormalizeSystemId(a) == NormalizeSystemId(b)
    ensures StartsWith(a, ClasspathSlash) || StartsWith(b, ClasspathSlash)
    ensures StartsWith(a, ClasspathSlash) ==>
              !StartsWith(b, ClasspathSlash) && b == Classpath + a[11..] && !StartsWith(a[11..], "/")
    ensures StartsWith(b, ClasspathSlash) ==>
              !StartsWith(a, ClasspathSlash) && a == Classpath + b[11..] && !StartsWith(b[11..], "/")
  {
  }

  /**
   * Only one slash is removed, so normalising is idempotent exactly when the identifier
   * does not start with `classpath://`.
   */
  lemma NormalizeTwiceIff(s: string)
    ensures (NormalizeSystemId(NormalizeSystemId(s)) == NormalizeSystemId(s))
              <==> !StartsWith(s, "classpath://")
  {
    var once := NormalizeSystemId(s);
    if StartsWith(s, "classpath://") {
      assert forall i :: 0 <= i < 11 ==> s[..11][i] == s[..12][i];
      assert s[..11] == ClasspathSlash;
      assert forall i :: 0 <= i < 11 ==> once[..11][i] == s[..12][i + i / 10];
      assert once[..11] == ClasspathSlash;
      assert |NormalizeSystemId(once)| == |once| - 1;
    } else if StartsWith(s, ClasspathSlash) {
      assert |s| > 11 ==> s[11] != '/';
    }
  }

  /** A concrete witness: `classpath://x` normalises to `classpath:/x`, and again to `classpath:x`. */
  lemma DoubleSlashExample()
    ensures NormalizeSystemId("classpath://x") == "classpath:/x"
    ensures NormalizeSystemId(NormalizeSystemId("classpath://x")) == "classpath:x"
    ensures NormalizeSystemId(NormalizeSystemId("classpath://x")) != NormalizeSystemId("classpath://x")
  {
    assert "classpath://x"[..11] == ClasspathSlash;
    assert "classpath:/x"[..11] == ClasspathSlash;
  }

  /**
   * A `system` entry: its optional `id`, its normalised system identifier and the target `uri`
   * (the already resolved absolute URI; resolving it against the base URI is done elsewhere).
   */
  datatype EntrySystem = EntrySystem(id: Option<string>, systemId: string, uri: string)

  /** The entry's constructor: the system identifier is stored in normal form. */
  function NewEntrySystem(id: Option<string>, systemId: string, uri: string): (e: EntrySystem)
    ensures e.id == id && e.uri == uri
    ensures e.systemId == NormalizeSystemId(systemId)
    ensures StartsWith(systemId, ClasspathSlash) ==> |e.systemId| + 1 == |systemId|
    ensures !StartsWith(systemId, ClasspathSlash) ==> e.systemId == systemId
  {
    EntrySystem(id, NormalizeSystemId(systemId), uri)
  }

  /** Two entries built from the two spellings of a classpath identifier carry the same key. */
  lemma SlashFormsBuildSameEntry(id: Option<string>, p: string, uri: string)
    requires !StartsWith(p, "/")
    ensures NewEntrySystem(id, ClasspathSlash + p, uri) == NewEntrySystem(id, Classpath + p, uri)
    ensures NewEntrySystem(id, ClasspathSlash + p, uri).systemId == Classpath + p
  {
    SlashFormsShareKey(p);
  }

  /** `getType()`: a `system` entry always reports the `System` kind. */
  function GetType(e: EntrySystem): (t: EntryType)
    ensures t.System?
  {
    System
  }

  /**
   * `toString()`: the word `system` and a space, the stored system identifier, the arrow
   * separator `rarr` (a constant of the entry model, passed in) and the target URI.
   */
  function ToString(e: EntrySystem, rarr: string): (r: string)
    ensures |r| == 7 + |e.systemId| + |rarr| + |e.uri|
    ensures r[..7] == "system "
    ensures r[7..7 + |e.systemId|] == e.systemId
    ensures r[7 + |e.systemId|..|r| - |e.uri|] == rarr
    ensures r[|r| - |e.uri|..] == e.uri
  {
    "system " + e.systemId + rarr + e.uri
  }

  /** The text shows the normalised key: both classpath spellings print alike. */
  lemma ToStringShowsNormalForm(id: Option<string>, p: string, uri: string, rarr: string)
    requires !StartsWith(p, "/")
    ensures ToString(NewEntrySystem(id, ClasspathSlash + p, uri), rarr)
            == "system " + Classpath + p + rarr + uri
  {
    SlashFormsBuildSameEntry(id, p, uri);
  }
}
