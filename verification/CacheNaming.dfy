/** The hash in the names of cached files, and what it keeps apart: sources and toolchains. */
module CacheNaming {
  import opened Integers
  import opened Wrappers
  import opened Hashing
  import opened CachePublish

  /** How source text becomes bytes. */
  type Encoding = string -> seq<u64>

  /** The cache as one toolchain uses it: a file is named after source hash and toolchain fingerprint. */
  function UnderToolchain(utf8: Encoding, toolchain: u64, artifact: Request -> seq<int>): World {
    World((source: string) => CacheKey(Fnv(utf8(source)), toolchain), artifact)
  }

  /** Under one toolchain two requests share a file exactly when names and source hashes agree. */
  lemma SameFileIff(utf8: Encoding, toolchain: u64, artifact: Request -> seq<int>, r: Request, other: Request)
    ensures var w := UnderToolchain(utf8, toolchain, artifact);
      Cached(w.KeyOf(r)) == Cached(w.KeyOf(other))
      <==> r.name == other.name && Fnv(utf8(r.source)) == Fnv(utf8(other.source))
  {
    CacheKeyInjective(Fnv(utf8(r.source)), Fnv(utf8(other.source)), toolchain, toolchain);
    PathsDifferIff(UnderToolchain(utf8, toolchain, artifact), r, other);
  }

  /** Changing one byte of a source changes its file. */
  lemma OneByteEdit(
    utf8: Encoding, toolchain: u64, artifact: Request -> seq<int>, r: Request, edited: Request, i: nat, x: u64)
    requires r.name == edited.name && i < |utf8(r.source)|
    requires utf8(edited.source) == utf8(r.source)[i := x] && x != utf8(r.source)[i]
    ensures var w := UnderToolchain(utf8, toolchain, artifact);
      Cached(w.KeyOf(r)) != Cached(w.KeyOf(edited))
  {
    OneWordChanged(utf8(r.source), i, x);
    SameFileIff(utf8, toolchain, artifact, r, edited);
  }

  /** No file of one toolchain serves a request under another. */
  lemma ToolchainsApart(
    utf8: Encoding, before: u64, after: u64, artifact: Request -> seq<int>, artifact': Request -> seq<int>, r: Request)
    requires before != after
    ensures Cached(UnderToolchain(utf8, before, artifact).KeyOf(r))
         != Cached(UnderToolchain(utf8, after, artifact').KeyOf(r))
  {
    CacheKeyInjective(Fnv(utf8(r.source)), 0, before, after);
  }
}
