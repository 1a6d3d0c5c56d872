/** FNV-1a hashes: layout fingerprints and the keys of the compile cache. */
module Hashing {
  import opened Integers
  import opened Text

  /** The 64-bit offset basis and prime of FNV-1a, section 2 of draft-eastlake-fnv. */
  const OFFSET: int := 0xcbf29ce484222325
  const PRIME: int := 0x100000001b3

  function Pow2(n: nat): (r: nat)
    ensures r > 0
  {
    if n == 0 then 1 else 2 * Pow2(n - 1)
  }

  /** Exclusive or of the low n bits. */
  function Xor(a: nat, b: nat, n: nat): (r: nat)
    ensures r < Pow2(n)
  {
    if n == 0 then 0 else (a % 2 + b % 2) % 2 + 2 * Xor(a / 2, b / 2, n - 1)
  }

  lemma LowBit(bit: nat, rest: nat)
    requires bit < 2
    ensures (bit + 2 * rest) % 2 == bit && (bit + 2 * rest) / 2 == rest
  {
  }

  lemma BitTwice(a: nat, b: nat)
    ensures ((a % 2 + b % 2) % 2 + b % 2) % 2 + 2 * (a / 2) == a
  {
  }

  lemma {:induction false} XorTwice(a: nat, b: nat, n: nat)
    requires a < Pow2(n)
    ensures Xor(Xor(a, b, n), b, n) == a
  {
    if n > 0 {
      XorTwice(a / 2, b / 2, n - 1);
      LowBit((a % 2 + b % 2) % 2, Xor(a / 2, b / 2, n - 1));
      BitTwice(a, b);
    }
  }

  lemma {:induction false} XorCommutes(a: nat, b: nat, n: nat)
    ensures Xor(a, b, n) == Xor(b, a, n)
  {
    if n > 0 {
      XorCommutes(a / 2, b / 2, n - 1);
    }
  }

  lemma Pow2Of64()
    ensures Pow2(64) == U64
  {
    assert Pow2(8) == 256;
    assert Pow2(16) == 65536;
    assert Pow2(24) == 0x100_0000;
    assert Pow2(32) == U32;
    assert Pow2(40) == 0x100_0000_0000;
    assert Pow2(48) == 0x1_0000_0000_0000;
    assert Pow2(56) == 0x100_0000_0000_0000;
  }

  function Xor64(a: u64, b: u64): u64 {
    Pow2Of64();
    Xor(a, b, 64)
  }

  /** `a ^ b` decides `a` given `b`. */
  lemma Xor64Injective(a: u64, a': u64, b: u64)
    ensures Xor64(a, b) == Xor64(a', b) <==> a == a'
    ensures Xor64(b, a) == Xor64(b, a') <==> a == a'
  {
    Pow2Of64();
    XorTwice(a, b, 64);
    XorTwice(a', b, 64);
    XorCommutes(b, a, 64);
    XorCommutes(b, a', 64);
  }

  /** One round: `h ^= x; h = h.wrapping_mul(PRIME)`. */
  function Round(h: u64, x: u64): u64 {
    Xor64(h, x) * PRIME % U64
  }

  const PRIME_INVERSE: int := 0xce965057aff6957b

  /** Undoing the multiplication: the prime and its inverse cancel. */
  lemma InverseCancels(a: u64)
    ensures (a * PRIME % U64) * PRIME_INVERSE % U64 == a
    ensures (a * PRIME_INVERSE % U64) * PRIME % U64 == a
  {
    var j := (PRIME * PRIME_INVERSE - 1) / U64;
    assert PRIME * PRIME_INVERSE == 1 + j * U64;
    Cancels(a, PRIME, PRIME_INVERSE, j);
    Cancels(a, PRIME_INVERSE, PRIME, j);
  }

  lemma Cancels(a: u64, m: int, n: int, j: int)
    requires m * n == 1 + j * U64
    ensures (a * m % U64) * n % U64 == a
  {
    var q := a * m / U64;
    var r := a * m % U64;
    assert a * m == q * U64 + r;
    assert r * n == a + U64 * (a * j - q * n) by {
      assert r * n == (a * m) * n - (q * U64) * n;
      assert (a * m) * n == a * (m * n) == a * (1 + j * U64);
    }
    AddMultiple(a, a * j - q * n);
  }

  lemma AddMultiple(a: u64, k: int)
    ensures (a + U64 * k) % U64 == a
  {
  }

  /** The hash from which a round on x gives y. */
  function Unround(y: u64, x: u64): u64 {
    Xor64(y * PRIME_INVERSE % U64, x)
  }

  lemma Xor64Twice(a: u64, b: u64)
    ensures Xor64(Xor64(a, b), b) == a
  {
    Pow2Of64();
    XorTwice(a, b, 64);
  }

  /** A round is a bijection of the hash for a fixed word, with Unround as its inverse. */
  lemma RoundBijective(h: u64, x: u64)
    ensures Unround(Round(h, x), x) == h
    ensures Round(Unround(h, x), x) == h
  {
    InverseCancels(Xor64(h, x));
    InverseCancels(h);
    Xor64Twice(h, x);
    Xor64Twice(h * PRIME_INVERSE % U64, x);
  }

  /** It is a bijection of the word, too, for a fixed hash. */
  lemma RoundBijectiveInWord(h: u64, x: u64)
    ensures Unround(Round(h, x), h) == x
    ensures Round(h, Unround(x, h)) == x
  {
    RoundBijective(x, h);
    Pow2Of64();
    XorCommutes(h, x, 64);
    XorCommutes(h, Unround(x, h), 64);
  }

  /** So different hashes stay different under one word, and different words make one hash different. */
  lemma RoundInjective(h: u64, h': u64, x: u64, x': u64)
    ensures Round(h, x) == Round(h', x) <==> h == h'
    ensures Round(h, x) == Round(h, x') <==> x == x'
  {
    RoundBijective(h, x);
    RoundBijective(h', x);
    RoundBijectiveInWord(h, x);
    RoundBijectiveInWord(h, x');
  }

  // ---- hashing a sequence of words ----

  function Absorb(h: u64, words: seq<u64>): u64
    decreases words
  {
    if words == [] then h else Absorb(Round(h, words[0]), words[1..])
  }

  function Fnv(words: seq<u64>): u64 {
    Absorb(OFFSET, words)
  }

  /** `fnv1a64`: the loop over bytes. */
  method Fnv1a64(data: seq<u64>) returns (h: u64)
    ensures h == Fnv(data)
  {
    h := OFFSET;
    assert data[0..] == data;
    for i := 0 to |data|
      invariant Absorb(h, data[i..]) == Fnv(data)
    {
      assert data[i..][0] == data[i] && data[i..][1..] == data[i + 1..];
      var x := Xor64(h, data[i]);
      h := x * PRIME % U64;
    }
  }

  lemma {:induction false} AbsorbAppend(h: u64, a: seq<u64>, b: seq<u64>)
    ensures Absorb(h, a + b) == Absorb(Absorb(h, a), b)
    decreases a
  {
    if a == [] {
      assert a + b == b;
    } else {
      assert (a + b)[1..] == a[1..] + b;
      AbsorbAppend(Round(h, a[0]), a[1..], b);
    }
  }

  /** Absorbing the same words keeps different hashes different. */
  lemma {:induction false} AbsorbInjective(h: u64, h': u64, words: seq<u64>)
    ensures Absorb(h, words) == Absorb(h', words) <==> h == h'
    decreases words
  {
    if words != [] {
      RoundInjective(h, h', words[0], 0);
      AbsorbInjective(Round(h, words[0]), Round(h', words[0]), words[1..]);
    }
  }

  /** Inputs of equal length that differ in one place never collide. */
  lemma OneWordChanged(words: seq<u64>, i: nat, x: u64)
    requires i < |words|
    ensures Fnv(words[i := x]) == Fnv(words) <==> x == words[i]
  {
    var a, b := words[..i], words[i + 1..];
    var h := Absorb(OFFSET, a);
    assert words == a + ([words[i]] + b) && words[i := x] == a + ([x] + b);
    AbsorbAppend(OFFSET, a, [words[i]] + b);
    AbsorbAppend(OFFSET, a, [x] + b);
    assert ([x] + b)[1..] == b && ([words[i]] + b)[1..] == b;
    RoundInjective(h, 0, x, words[i]);
    AbsorbInjective(Round(h, x), Round(h, words[i]), b);
  }

  /** A common suffix hides nothing: the hashes agree iff they agreed before it. */
  lemma CommonSuffix(a: seq<u64>, b: seq<u64>, suffix: seq<u64>)
    ensures Fnv(a + suffix) == Fnv(b + suffix) <==> Fnv(a) == Fnv(b)
  {
    AbsorbAppend(OFFSET, a, suffix);
    AbsorbAppend(OFFSET, b, suffix);
    AbsorbInjective(Fnv(a), Fnv(b), suffix);
  }

  // ---- layout fingerprints ----

  /** Offset, size and alignment of one field, as machine words. */
  datatype Field = Field(offset: u64, size: u64, align: u64)

  function Words(fields: seq<Field>): (ws: seq<u64>)
    ensures |ws| == 3 * |fields|
    ensures forall i :: 0 <= i < |fields| ==>
      ws[3 * i] == fields[i].offset && ws[3 * i + 1] == fields[i].size && ws[3 * i + 2] == fields[i].align
  {
    if fields == [] then []
    else
      var n := |fields| - 1;
      Words(fields[..n]) + [fields[n].offset, fields[n].size, fields[n].align]
  }

  /** `layout_fingerprint_of`: the nested loop over fields and their three words. */
  method LayoutFingerprintOf(fields: seq<Field>) returns (h: u64)
    ensures h == Fnv(Words(fields))
  {
    h := OFFSET;
    for i := 0 to |fields|
      invariant h == Fnv(Words(fields[..i]))
    {
      var triple := [fields[i].offset, fields[i].size, fields[i].align];
      assert fields[..i + 1][..i] == fields[..i];
      AbsorbAppend(OFFSET, Words(fields[..i]), triple);
      assert triple[0..] == triple;
      ghost var h0 := h;
      for j := 0 to 3
        invariant Absorb(h, triple[j..]) == Absorb(h0, triple)
      {
        assert triple[j..][0] == triple[j] && triple[j..][1..] == triple[j + 1..];
        var x := Xor64(h, triple[j]);
        h := x * PRIME % U64;
      }
    }
    assert fields[..|fields|] == fields;
  }

  /** Field lists that differ in a single offset, size or alignment have different fingerprints. */
  lemma OneFieldChanged(fields: seq<Field>, i: nat, f: Field)
    requires i < |fields|
    requires f != fields[i]
    requires (if f.offset != fields[i].offset then 1 else 0) + (if f.size != fields[i].size then 1 else 0)
           + (if f.align != fields[i].align then 1 else 0) == 1
    ensures Fnv(Words(fields[i := f])) != Fnv(Words(fields))
  {
    var ws, ws' := Words(fields), Words(fields[i := f]);
    var k := if f.offset != fields[i].offset then 3 * i else if f.size != fields[i].size then 3 * i + 1 else 3 * i + 2;
    forall j | 0 <= j < |ws| && j != k ensures ws'[j] == ws[j] {
      assert j == 3 * (j / 3) + j % 3;
      assert fields[i := f][j / 3] == if j / 3 == i then f else fields[j / 3];
    }
    assert fields[i := f][i] == f;
    assert ws' == ws[k := ws'[k]];
    OneWordChanged(ws, k, ws'[k]);
  }

  /** `size << 32 | align` on u64, for an alignment below 2^32: the two halves do not overlap. */
  function LayoutFingerprint(size: u64, align: u64): u64
    requires align < U32
  {
    size * U32 % U64 + align
  }

  /** The shift drops what does not fit: equal fingerprints mean equal alignment, and size mod 2^32. */
  lemma LayoutFingerprintInjective(size: u64, align: u64, size': u64, align': u64)
    requires align < U32 && align' < U32
    ensures LayoutFingerprint(size, align) == LayoutFingerprint(size', align')
       <==> size % U32 == size' % U32 && align == align'
  {
    ShiftKeepsLowHalf(size);
    ShiftKeepsLowHalf(size');
  }

  lemma ShiftKeepsLowHalf(size: u64)
    ensures size * U32 % U64 == (size % U32) * U32
  {
    var q, r := size / U32, size % U32;
    assert size * U32 == q * U64 + r * U32;
    assert 0 <= r * U32 < U64;
  }

  // ---- cache keys ----

  function RotateLeft32(x: u64): u64 {
    x % U32 * U32 + x / U32
  }

  lemma RotateLeft32Injective(x: u64, y: u64)
    ensures RotateLeft32(x) == RotateLeft32(y) <==> x == y
  {
    assert RotateLeft32(x) % U32 == x / U32 && RotateLeft32(x) / U32 == x % U32;
    assert RotateLeft32(y) % U32 == y / U32 && RotateLeft32(y) / U32 == y % U32;
  }

  function CacheKey(sourceHash: u64, toolchain: u64): u64 {
    Xor64(sourceHash, RotateLeft32(toolchain))
  }

  /** A new toolchain always changes the key of a source, and a new source hash that of a toolchain. */
  lemma CacheKeyInjective(source: u64, source': u64, toolchain: u64, toolchain': u64)
    ensures CacheKey(source, toolchain) == CacheKey(source', toolchain) <==> source == source'
    ensures CacheKey(source, toolchain) == CacheKey(source, toolchain') <==> toolchain == toolchain'
  {
    Xor64Injective(source, source', RotateLeft32(toolchain));
    Xor64Injective(RotateLeft32(toolchain), RotateLeft32(toolchain'), source);
    RotateLeft32Injective(toolchain, toolchain');
  }

  const MARK: string := "\n---DEPS---\n"

  /** The text hashed by the build with dependencies. */
  function DepsText(source: string, deps: string): string {
    source + MARK + deps
  }

  /** Only its first and last characters are newlines, so two marks overlap in at most one. */
  lemma MarkOverlap(source: string, deps: string, i: nat)
    requires i < |source| && StartsWith(DepsText(source, deps)[i..], MARK)
    ensures Contains(source + "\n", MARK)
  {
    var text := DepsText(source, deps);
    var k := |source| - i;
    assert forall j :: 0 <= j < |MARK| ==> text[i + j] == MARK[j] by {
      assert forall j :: 0 <= j < |MARK| ==> text[i..][..|MARK|][j] == text[i + j];
    }
    assert text[|source|] == '\n';
    assert k >= |MARK| || MARK[k] == '\n';
    assert (source + "\n")[i..][..|MARK|] == text[i..][..|MARK|];
    assert StartsWith((source + "\n")[i..], MARK);
    FindIsFirst(source + "\n", MARK);
  }

  /** Another pair, with a shorter source, has the same text. */
  predicate Shadows(source': string, deps': string, source: string, deps: string) {
    |source'| < |source| && DepsText(source', deps') == DepsText(source, deps)
  }

  /** The text hides a second, shorter source exactly when a mark can be found in this one. */
  lemma DepsTextAmbiguousIff(source: string, deps: string)
    ensures (exists source', deps' :: Shadows(source', deps', source, deps))
       <==> Contains(source + "\n", "\n---DEPS---\n")
  {
    if Contains(source + "\n", MARK) {
      MarkShadows(source, deps, Find(source + "\n", MARK).value);
    }
    if source', deps' :| Shadows(source', deps', source, deps) {
      assert DepsText(source, deps)[|source'|..] == MARK + deps';
      MarkOverlap(source, deps, |source'|);
    }
  }

  lemma MarkShadows(source: string, deps: string, i: nat)
    requires i <= |source| && StartsWith((source + "\n")[i..], MARK)
    ensures exists source', deps' :: Shadows(source', deps', source, deps)
  {
    var text := DepsText(source, deps);
    assert i + |MARK| <= |source| + 1;
    assert text[i..][..|MARK|] == (source + "\n")[i..][..|MARK|];
    assert text == text[..i] + text[i..][..|MARK|] + text[i + |MARK|..];
    assert Shadows(text[..i], text[i + |MARK|..], source, deps);
  }

  /** Sources in which no mark can be found share a text only if they and the dependencies agree. */
  lemma DepsTextInjective(source: string, deps: string, source': string, deps': string)
    requires !Contains(source + "\n", MARK) && !Contains(source' + "\n", MARK)
    ensures DepsText(source, deps) == DepsText(source', deps') <==> source == source' && deps == deps'
  {
    DepsTextAmbiguousIff(source, deps);
    DepsTextAmbiguousIff(source', deps');
    if DepsText(source, deps) == DepsText(source', deps') {
      assert !Shadows(source', deps', source, deps) && !Shadows(source, deps, source', deps');
      assert DepsText(source, deps)[..|source|] == source;
      assert DepsText(source', deps')[..|source|] == source';
      assert DepsText(source, deps)[|source| + |MARK|..] == deps;
      assert DepsText(source', deps')[|source| + |MARK|..] == deps';
    }
  }

  /**
   The build without dependencies hashes its source alone and names its file the same way: its text is also
   that of a build with dependencies exactly when its source contains a mark.
   */
  lemma PlainSharesTextIff(plain: string)
    ensures (exists source, deps :: DepsText(source, deps) == plain) <==> Contains(plain, "\n---DEPS---\n")
  {
    if Contains(plain, MARK) {
      var i := Find(plain, MARK).value;
      assert plain == plain[..i] + plain[i..][..|MARK|] + plain[i..][|MARK|..];
      assert DepsText(plain[..i], plain[i..][|MARK|..]) == plain;
    }
    if source, deps :| DepsText(source, deps) == plain {
      assert plain[|source|..] == MARK + deps;
      assert StartsWith(plain[|source|..], MARK);
      FindIsFirst(plain, MARK);
    }
  }

  // ---- known values ----

  lemma {:induction false} XorZero(a: nat, n: nat)
    requires a < Pow2(n)
    ensures Xor(0, a, n) == a && Xor(a, 0, n) == a
  {
    if n > 0 {
      XorZero(a / 2, n - 1);
    }
  }

  /** A zero byte only multiplies. */
  lemma ZeroByte(h: u64, words: seq<u64>)
    requires words == [0]
    ensures Absorb(h, words) == h * PRIME % U64
  {
    Pow2Of64();
    XorZero(h, 64);
    assert words[1..] == [];
    assert Absorb(Round(h, words[0]), words[1..]) == Round(h, words[0]);
  }

  /** Hashing starts from the 64-bit offset basis. */
  lemma StartsFrom(h: u64, words: seq<u64>)
    requires h == 0xcbf29ce484222325
    ensures Fnv(words) == Absorb(h, words)
  {
  }

  /** A hash and what a multiplication makes of it: the offset basis, and the value FNV-1a has for one zero byte. */
  predicate Known(h: u64, product: u64) {
    h == 0xcbf29ce484222325 && product == 0xaf63bd4c8601b7df
  }

  lemma KnownProduct(h: u64, product: u64)
    requires Known(h, product)
    ensures h * PRIME % U64 == product
  {
  }

  lemma KnownHash(h: u64, product: u64, zero: seq<u64>)
    requires Known(h, product) && zero == [0]
    ensures Fnv(zero) == product
  {
    KnownProduct(h, product);
    StartsFrom(h, zero);
    ZeroByte(h, zero);
  }

  /** The fingerprint of the toolchain enters the key with its halves exchanged. */
  lemma ToolchainSwapsHalves(toolchain: u64)
    ensures CacheKey(0, toolchain) / U32 == toolchain % U32 && CacheKey(0, toolchain) % U32 == toolchain / U32
  {
    Pow2Of64();
    XorZero(RotateLeft32(toolchain), 64);
  }
}
