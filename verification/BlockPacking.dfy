/**
 * A block storage as sent to a client: indices packed into 32-bit words, as many bits
 * each as the palette needs, and then the palette.
 */
module BlockPacking {
  import opened Bits
  import opened Sequences
  import opened BinaryStreams
  import opened NbtNumbers
  import opened Nbt
  import opened BlockStorages

  datatype Version = Version(bits: nat, perWord: nat, words: nat)

  /** The least number of bits that tell n values apart. */
  function CeilLog2(n: nat): (k: nat)
    requires n > 0
    ensures n <= Pow2(k) && (k > 0 ==> Pow2(k - 1) < n)
  {
    if n == 1 then 0 else 1 + CeilLog2((n + 1) / 2)
  }

  function VersionFor(bits: nat): Version {
    if bits <= 1 then Version(1, 32, 128)
    else if bits == 2 then Version(2, 16, 256)
    else if bits == 3 then Version(3, 10, 410)
    else if bits == 4 then Version(4, 8, 512)
    else if bits == 5 then Version(5, 6, 683)
    else if bits == 6 then Version(6, 5, 820)
    else if bits <= 8 then Version(8, 4, 1024)
    else Version(16, 2, 2048)
  }

  /** Where word i's indices start. */
  function From(i: nat, v: Version): (p: nat)
    ensures p <= BLOCKS
  {
    if i * v.perWord < BLOCKS then i * v.perWord else BLOCKS
  }

  /** The words hold every index, none is unused, and none overflows 32 bits. */
  predicate VersionOk(v: Version) {
    && v.bits > 0 && v.perWord > 0 && v.words > 0 && v.bits * v.perWord <= 32
    && BLOCKS <= v.words * v.perWord < BLOCKS + v.perWord
  }

  /** The form chosen has room for every index into the palette. */
  lemma VersionFits(size: nat)
    requires 0 < size <= 65536
    ensures var v := VersionFor(CeilLog2(size));
      VersionOk(v) && v.bits <= 16 && size <= Pow2(v.bits)
  {
    var k := CeilLog2(size);
    assert Pow2(8) == 256;
    assert Pow2(16) == 65536;
    if k > 16 {
      Pow2Monotone(16, k - 1);
    }
    Pow2Monotone(k, VersionFor(k).bits);
  }

  lemma FromStep(i: nat, v: Version)
    requires VersionOk(v) && i < v.words
    ensures From(i, v) < BLOCKS && From(0, v) == 0 && From(v.words, v) == BLOCKS
    ensures From(i + 1, v) == if From(i, v) + v.perWord < BLOCKS then From(i, v) + v.perWord else BLOCKS
  {
    assert (i + 1) * v.perWord == i * v.perWord + v.perWord;
    MulAtLeast(v.perWord, i, v.words - 1);
    assert (v.words - 1) * v.perWord == v.words * v.perWord - v.perWord;
  }

  predicate Below(s: seq<nat>, limit: nat) {
    forall i :: 0 <= i < |s| ==> s[i] < limit
  }

  /** Indices side by side in one word, the first in the low bits. */
  function Pack(s: seq<nat>, bits: nat): nat {
    if s == [] then 0 else s[0] + Pow2(bits) * Pack(s[1..], bits)
  }

  lemma {:induction false} PackSnoc(s: seq<nat>, v: nat, bits: nat)
    ensures Pack(s + [v], bits) == Pack(s, bits) + Pow2(bits * |s|) * v
  {
    var t := s + [v];
    if s == [] {
      assert t[1..] == [];
      assert bits * 0 == 0;
    } else {
      assert t[1..] == s[1..] + [v];
      PackSnoc(s[1..], v, bits);
      Pow2Add(bits, bits * (|s| - 1));
      assert bits + bits * (|s| - 1) == bits * |s|;
      Regroup(Pow2(bits), Pack(s[1..], bits), Pow2(bits * (|s| - 1)), v);
    }
  }

  lemma Regroup(a: nat, b: nat, c: nat, d: nat)
    ensures a * (b + c * d) == a * b + (a * c) * d
  {
    assert a * (c * d) == (a * c) * d;
  }

  lemma {:induction false} PackBound(s: seq<nat>, bits: nat)
    requires Below(s, Pow2(bits))
    ensures Pack(s, bits) < Pow2(bits * |s|)
  {
    hide Pow2;
    if s == [] {
      assert bits * 0 == 0;
    } else {
      PackBound(s[1..], bits);
      Pow2Add(bits, bits * (|s| - 1));
      assert bits + bits * (|s| - 1) == bits * |s|;
      BelowProduct(s[0], Pow2(bits), Pack(s[1..], bits), Pow2(bits * (|s| - 1)));
    }
  }

  lemma BelowProduct(low: nat, m: nat, q: nat, p: nat)
    requires low < m && q < p
    ensures low + m * q < m * p
  {
    MulAtLeast(m, q + 1, p);
    assert m * (q + 1) == m * q + m;
  }

  /** Every index can be taken out of its word again. */
  lemma {:induction false} PackAt(s: seq<nat>, bits: nat, k: nat)
    requires Below(s, Pow2(bits)) && k < |s|
    ensures Pack(s, bits) / Pow2(bits * k) % Pow2(bits) == s[k]
  {
    var m, q := Pow2(bits), Pack(s[1..], bits);
    if k == 0 {
      assert bits * 0 == 0;
      LowPart(s[0], m, q);
    } else {
      PackAt(s[1..], bits, k - 1);
      Pow2Add(bits, bits * (k - 1));
      assert bits + bits * (k - 1) == bits * k;
      LowPart(s[0], m, q);
      DivideTwice(s[0] + m * q, m, Pow2(bits * (k - 1)));
    }
  }

  lemma LowPart(low: nat, m: nat, q: nat)
    requires low < m
    ensures (low + m * q) % m == low && (low + m * q) / m == q
  {
    QuotientUnique(low + m * q, m, q, low);
  }

  lemma DivideTwice(v: nat, a: nat, b: nat)
    requires a > 0 && b > 0
    ensures a * b > 0 && v / a / b == v / (a * b)
  {
    var h := v / a;
    Recompose(v, a, b, h / b, h % b, v % a);
    QuotientUnique(v, a * b, h / b, a * (h % b) + v % a);
  }

  lemma Recompose(v: nat, a: nat, b: nat, q: nat, r: nat, low: nat)
    requires v == a * (b * q + r) + low && low < a && r < b
    ensures v == (a * b) * q + (a * r + low) && a * r + low < a * b
  {
    assert a * (b * q + r) == (a * b) * q + a * r;
    BelowProduct(low, a, r, b);
  }

  function WordOf(blocks: seq<nat>, v: Version, i: nat): nat
    requires |blocks| == BLOCKS && From(i, v) <= From(i + 1, v)
  {
    Pack(blocks[From(i, v)..From(i + 1, v)], v.bits)
  }

  lemma FromGrows(i: nat, v: Version)
    ensures From(i, v) <= From(i + 1, v)
  {
    assert (i + 1) * v.perWord == i * v.perWord + v.perWord;
  }

  /** The first n words. */
  function WordsBytes(blocks: seq<nat>, v: Version, n: nat): (s: seq<byte>)
    requires |blocks| == BLOCKS
    ensures |s| == 4 * n
  {
    if n == 0 then []
    else
      FromGrows(n - 1, v);
      WordsBytes(blocks, v, n - 1) + Le(WordOf(blocks, v, n - 1), 4)
  }

  predicate Sendable(blocks: seq<nat>, palette: seq<int>) {
    StorageOk(blocks, palette) && |palette| <= 65536 && AllInRange(palette, TWO_32)
  }

  function PaletteBytes(palette: seq<int>): seq<byte>
    requires |palette| <= 65536 && AllInRange(palette, TWO_32)
  {
    IntBytes(|palette|, NetworkEndian) + IntsBytes(palette, NetworkEndian)
  }

  function StorageBytes(blocks: seq<nat>, palette: seq<int>): seq<byte>
    requires Sendable(blocks, palette)
  {
    var v := VersionFor(CeilLog2(|palette|));
    VersionFits(|palette|);
    [2 * v.bits + 1] + (WordsBytes(blocks, v, v.words) + PaletteBytes(palette))
  }

  /** One word is filled from position on. */
  method FillWord(storage: BlockStorage, v: Version, ghost i: nat, start: nat) returns (word: nat, position: nat)
    requires storage.blocks.Length == BLOCKS && VersionOk(v) && i < v.words && start == From(i, v)
    ensures From(i, v) <= From(i + 1, v) && position == From(i + 1, v) && word == WordOf(storage.blocks[..], v, i)
  {
    hide From, Pack;
    FromStep(i, v);
    word, position := 0, start;
    ghost var s := storage.blocks[..];
    PackNone(s[start..start], v.bits);
    var ii := 0;
    while ii < v.perWord
      invariant ii <= v.perWord && start <= position <= BLOCKS && position == start + ii
      invariant word == Pack(s[start..position], v.bits)
    {
      if position >= BLOCKS {
        break;
      }
      PackSnoc(s[start..position], storage.blocks[position], v.bits);
      assert s[start..position] + [s[position]] == s[start..position + 1];
      // The bits at and above v.bits * ii are still 0, so that or and sum agree.
      word := word + Pow2(v.bits * ii) * storage.blocks[position];
      position := position + 1;
      ii := ii + 1;
    }
  }

  lemma PackNone(s: seq<nat>, bits: nat)
    ensures s == [] ==> Pack(s, bits) == 0
  {
  }

  method PutWords(storage: BlockStorage, v: Version, stream: BinaryStream)
    requires storage.blocks.Length == BLOCKS && VersionOk(v)
    modifies stream`buffer
    ensures stream.buffer == old(stream.buffer) + WordsBytes(storage.blocks[..], v, v.words)
  {
    hide From, WordOf, VersionOk, Le;
    var position := 0;
    FromZero(v);
    for i := 0 to v.words
      invariant position == From(i, v)
      invariant stream.buffer == old(stream.buffer) + WordsBytes(storage.blocks[..], v, i)
    {
      var word: nat;
      word, position := FillWord(storage, v, i, position);
      stream.PutIntLe(word);
    }
  }

  lemma FromZero(v: Version)
    ensures From(0, v) == 0
  {
  }

  /** Writes a storage as a client reads it. */
  method PutBlockStorage(storage: BlockStorage, stream: BinaryStream)
    requires storage.Valid() && Sendable(storage.blocks[..], storage.palette)
    modifies stream`buffer
    ensures stream.buffer == old(stream.buffer) + StorageBytes(storage.blocks[..], storage.palette)
  {
    hide VersionFor, CeilLog2, VersionOk, WordsBytes, IntsBytes, IntBytes, NoRepeats;
    var size := |storage.palette|;
    var v := VersionFor(CeilLog2(size));
    VersionFits(size);
    stream.PutByte(2 * v.bits + 1);
    PutWords(storage, v, stream);
    PutInt(size, NetworkEndian, stream);
    PutInts(storage.palette, NetworkEndian, stream);
    ghost var words, sizeBytes, ids := WordsBytes(storage.blocks[..], v, v.words), IntBytes(size, NetworkEndian), IntsBytes(storage.palette, NetworkEndian);
    FourParts(old(stream.buffer), [2 * v.bits + 1], words, sizeBytes, ids);
  }

  lemma FourParts(a: seq<byte>, b: seq<byte>, c: seq<byte>, d: seq<byte>, e: seq<byte>)
    ensures a + b + c + d + e == a + (b + (c + (d + e)))
  {
  }

  /** A word fits in four bytes. */
  lemma WordFits(blocks: seq<nat>, v: Version, i: nat)
    requires |blocks| == BLOCKS && VersionOk(v) && i < v.words && Below(blocks, Pow2(v.bits))
    ensures From(i, v) <= From(i + 1, v) && WordOf(blocks, v, i) < Pow256(4)
  {
    hide From, Pack, Pow2;
    FromStep(i, v);
    var s := blocks[From(i, v)..From(i + 1, v)];
    PackBound(s, v.bits);
    MulAtLeast(v.bits, |s|, v.perWord);
    Pow2Monotone(v.bits * |s|, 32);
    WordSize();
  }

  lemma WordSize()
    ensures Pow2(32) == Pow256(4)
  {
    assert Pow2(8) == 256;
    Pow2Add(8, 8);
    Pow2Add(16, 16);
    ByteSizes();
  }

  lemma {:induction false} WordsAt(blocks: seq<nat>, v: Version, n: nat, i: nat)
    requires |blocks| == BLOCKS && i < n
    ensures From(i, v) <= From(i + 1, v) && WordsBytes(blocks, v, n)[4 * i..4 * i + 4] == Le(WordOf(blocks, v, i), 4)
  {
    hide From, WordOf, Le;
    FromGrows(i, v);
    if i < n - 1 {
      WordsAt(blocks, v, n - 1, i);
    }
  }

  /** Position p is the p % perWord-th index of word p / perWord. */
  lemma PositionIn(p: nat, v: Version)
    requires p < BLOCKS && VersionOk(v)
    ensures var i := p / v.perWord;
      i < v.words && From(i, v) + p % v.perWord == p < From(i + 1, v)
  {
    var i := p / v.perWord;
    assert p == v.perWord * i + p % v.perWord;
    assert i * v.perWord == v.perWord * i;
    assert (i + 1) * v.perWord == i * v.perWord + v.perWord;
    QuotientBelow(p, v.perWord, v.words);
  }

  lemma QuotientBelow(p: nat, d: nat, n: nat)
    requires d > 0 && p < n * d
    ensures p / d < n
  {
    if p / d >= n {
      MulAtLeast(d, n, p / d);
    }
  }

  /** What a client takes out of the words for position p. */
  function StateAt(words: seq<byte>, v: Version, p: nat): nat
    requires v.perWord > 0 && 4 * (p / v.perWord) + 4 <= |words|
  {
    FromLe(words[4 * (p / v.perWord)..4 * (p / v.perWord) + 4]) / Pow2(v.bits * (p % v.perWord)) % Pow2(v.bits)
  }

  /** The words hold every index, where the client looks for it. */
  lemma StateRead(blocks: seq<nat>, v: Version, p: nat)
    requires |blocks| == BLOCKS && VersionOk(v) && Below(blocks, Pow2(v.bits)) && p < BLOCKS
    ensures 4 * (p / v.perWord) + 4 <= 4 * v.words && StateAt(WordsBytes(blocks, v, v.words), v, p) == blocks[p]
  {
    hide From, Pack, Pow2, FromLe, WordsBytes;
    PositionIn(p, v);
    var i, k := p / v.perWord, p % v.perWord;
    WordRead(blocks, v, i);
    PackAt(blocks[From(i, v)..From(i + 1, v)], v.bits, k);
  }

  lemma WordRead(blocks: seq<nat>, v: Version, i: nat)
    requires |blocks| == BLOCKS && VersionOk(v) && Below(blocks, Pow2(v.bits)) && i < v.words
    ensures From(i, v) <= From(i + 1, v)
    ensures FromLe(WordsBytes(blocks, v, v.words)[4 * i..4 * i + 4]) == WordOf(blocks, v, i)
  {
    hide From, WordOf, Pow2, Le, FromLe, Pow256, Below, WordsBytes;
    WordsAt(blocks, v, v.words, i);
    WordFits(blocks, v, i);
    LeRoundTrip(WordOf(blocks, v, i), 4);
  }

  lemma StatesBelow(blocks: seq<nat>, palette: seq<int>)
    requires Sendable(blocks, palette)
    ensures var v := VersionFor(CeilLog2(|palette|));
      VersionOk(v) && v.bits <= 16 && Below(blocks, Pow2(v.bits))
  {
    hide CeilLog2, Pow2, VersionFor, VersionOk;
    VersionFits(|palette|);
  }

  lemma SameWords(a: seq<nat>, b: seq<nat>, v: Version)
    requires |a| == |b| == BLOCKS && VersionOk(v) && Below(a, Pow2(v.bits)) && Below(b, Pow2(v.bits))
    requires WordsBytes(a, v, v.words) == WordsBytes(b, v, v.words)
    ensures a == b
  {
    hide WordsBytes, StateAt, VersionOk, Pow2;
    forall p: nat | p < BLOCKS ensures a[p] == b[p] {
      StateRead(a, v, p);
      StateRead(b, v, p);
    }
  }

  /** A number in seven-bit groups ends by itself. */
  lemma {:induction false} VarUnique(a: nat, b: nat, r: seq<byte>, s: seq<byte>)
    requires VarBytes(a) + r == VarBytes(b) + s
    ensures a == b && r == s
  {
    GroupAhead(a, r, VarBytes(a) + r);
    GroupAhead(b, s, VarBytes(a) + r);
    if a >= 128 {
      VarUnique(a / 128, b / 128, r, s);
    }
  }

  lemma {:induction false} IntsUnique(p: seq<int>, q: seq<int>, r: seq<byte>, s: seq<byte>)
    requires AllInRange(p, TWO_32) && AllInRange(q, TWO_32) && |p| == |q|
    requires IntsBytes(p, NetworkEndian) + r == IntsBytes(q, NetworkEndian) + s
    ensures p == q && r == s
  {
    hide VarBytes, ZigZag;
    if p == [] {
      assert [] + r == r && [] + s == s;
    } else {
      IntsFirst(p);
      IntsFirst(q);
      ZigZagBijection(p[0], 0, TWO_32);
      ZigZagBijection(q[0], 0, TWO_32);
      var p1, q1 := IntsBytes(p[1..], NetworkEndian), IntsBytes(q[1..], NetworkEndian);
      Assoc(VarBytes(ZigZag(p[0])), p1, r);
      Assoc(VarBytes(ZigZag(q[0])), q1, s);
      VarUnique(ZigZag(p[0]), ZigZag(q[0]), p1 + r, q1 + s);
      IntsUnique(p[1..], q[1..], r, s);
      assert p[0] == q[0];
      assert p == [p[0]] + p[1..] && q == [q[0]] + q[1..];
    }
  }

  lemma IntsFirst(p: seq<int>)
    requires AllInRange(p, TWO_32) && p != []
    ensures AllInRange(p[1..], TWO_32)
    ensures IntsBytes(p, NetworkEndian) == VarBytes(ZigZag(p[0])) + IntsBytes(p[1..], NetworkEndian)
  {
    hide VarBytes, ZigZag;
  }

  lemma PaletteUnique(p: seq<int>, q: seq<int>, r: seq<byte>, s: seq<byte>)
    requires |p| <= 65536 && AllInRange(p, TWO_32) && |q| <= 65536 && AllInRange(q, TWO_32)
    requires PaletteBytes(p) + r == PaletteBytes(q) + s
    ensures p == q && r == s
  {
    hide VarBytes, IntsBytes;
    Assoc(VarBytes(ZigZag(|p|)), IntsBytes(p, NetworkEndian), r);
    Assoc(VarBytes(ZigZag(|q|)), IntsBytes(q, NetworkEndian), s);
    VarUnique(ZigZag(|p|), ZigZag(|q|), IntsBytes(p, NetworkEndian) + r, IntsBytes(q, NetworkEndian) + s);
    IntsUnique(p, q, r, s);
  }

  /** What is sent determines the storage, whatever follows it. */
  lemma StorageUnique(a: seq<nat>, p: seq<int>, b: seq<nat>, q: seq<int>, r: seq<byte>, s: seq<byte>)
    requires Sendable(a, p) && Sendable(b, q) && StorageBytes(a, p) + r == StorageBytes(b, q) + s
    ensures a == b && p == q && r == s
  {
    hide WordsBytes, PaletteBytes, CeilLog2, NoRepeats, Below;
    var v, w := VersionFor(CeilLog2(|p|)), VersionFor(CeilLog2(|q|));
    StatesBelow(a, p);
    StatesBelow(b, q);
    var pw, qw := WordsBytes(a, v, v.words), WordsBytes(b, w, w.words);
    ThreeParts([2 * v.bits + 1], pw, PaletteBytes(p), r);
    ThreeParts([2 * w.bits + 1], qw, PaletteBytes(q), s);
    FirstDiffers(2 * v.bits + 1, pw + (PaletteBytes(p) + r), 2 * w.bits + 1, qw + (PaletteBytes(q) + s));
    assert v == w;
    SplitAt(pw, PaletteBytes(p) + r, qw, PaletteBytes(q) + s);
    SameWords(a, b, v);
    PaletteUnique(p, q, r, s);
  }

  lemma ThreeParts(a: seq<byte>, b: seq<byte>, c: seq<byte>, d: seq<byte>)
    ensures a + (b + c) + d == a + (b + (c + d))
  {
  }

  lemma FirstDiffers(a: byte, s: seq<byte>, b: byte, t: seq<byte>)
    requires [a] + s == [b] + t
    ensures a == b && s == t
  {
    assert ([a] + s)[0] == a && ([b] + t)[0] == b;
    assert ([a] + s)[1..] == s && ([b] + t)[1..] == t;
  }

  lemma SplitAt(a: seq<byte>, s: seq<byte>, b: seq<byte>, t: seq<byte>)
    requires a + s == b + t && |a| == |b|
    ensures a == b && s == t
  {
    assert (a + s)[..|a|] == a && (b + t)[..|b|] == b;
    assert (a + s)[|a|..] == s && (b + t)[|b|..] == t;
  }

  /** The numbers in a byte string of seven-bit groups, one after the other. */
  function GroupNumbers(s: seq<byte>): seq<nat> {
    if s == [] then []
    else
      var b: nat, more := s[0], GroupNumbers(s[1..]);
      if b < 128 then [b] + more
      else if more == [] then [] else [b % 128 + 128 * more[0]] + more[1..]
  }

  lemma {:induction false} GroupNumbersCons(v: nat, rest: seq<byte>)
    ensures GroupNumbers(VarBytes(v) + rest) == [v] + GroupNumbers(rest)
  {
    var s := VarBytes(v) + rest;
    if v < 128 {
      assert s[1..] == rest;
    } else {
      GroupNumbersCons(v / 128, rest);
      assert s[1..] == VarBytes(v / 128) + rest;
    }
  }

  /** The network form of some signed numbers. */
  function Doubled(s: seq<int>): (r: seq<nat>)
    ensures |r| == |s| && forall i :: 0 <= i < |s| ==> r[i] == if s[i] >= 0 then 2 * s[i] else -2 * s[i] - 1
  {
    if s == [] then [] else [if s[0] >= 0 then 2 * s[0] else -2 * s[0] - 1] + Doubled(s[1..])
  }

  lemma {:induction false} IntsSpelled(p: seq<int>)
    requires AllInRange(p, TWO_32)
    ensures GroupNumbers(IntsBytes(p, NetworkEndian)) == Doubled(p)
  {
    if p != [] {
      IntsSpelled(p[1..]);
      GroupNumbersCons(ZigZag(p[0]), IntsBytes(p[1..], NetworkEndian));
    }
  }

  /** How many bits an index takes: the least number of them that will do, but no 7, and 16 beyond 8. */
  predicate BitsFor(bits: nat, size: nat) {
    && bits in {1, 2, 3, 4, 5, 6, 8, 16} && size <= Pow2(bits)
    && (bits == 8 ==> size > Pow2(6)) && (bits == 16 ==> size > Pow2(8)) && (1 < bits <= 6 ==> size > Pow2(bits - 1))
  }

  /** How a client reads position p: the number of bits from the first byte, little-endian words, the low bits first. */
  function ClientIndex(s: seq<byte>, p: nat): nat {
    var bits: nat := if |s| > 0 then s[0] / 2 else 0;
    if bits == 0 || bits > 32 then 0 else NumberIn(WordBytes(s, p / (32 / bits)), bits, p % (32 / bits))
  }

  /** The k-th word. */
  function WordBytes(s: seq<byte>, k: nat): seq<byte> {
    if 5 + 4 * k > |s| then [] else s[1 + 4 * k..5 + 4 * k]
  }

  /** The i-th number in a word. */
  function NumberIn(word: seq<byte>, bits: nat, i: nat): nat {
    Low(High(FromLe(word), bits * i), bits)
  }

  /** What stands behind as many words as 4096 positions need. */
  function ClientPalette(s: seq<byte>): seq<nat> {
    var bits: nat := if |s| > 0 then s[0] / 2 else 0;
    if bits == 0 || bits > 32 then []
    else
      var perWord := 32 / bits;
      var at := 1 + 4 * ((4095 + perWord) / perWord);
      if at > |s| then [] else GroupNumbers(s[at..])
  }

  /**
   * A client takes out of the bytes what is in the storage: x runs slowest and y fastest, and the palette comes
   * behind its size, all numbers doubled as the network form has it.
   */
  lemma StorageLayout(blocks: seq<nat>, palette: seq<int>, x: nat, y: nat, z: nat)
    requires Sendable(blocks, palette) && x < 16 && y < 16 && z < 16
    ensures var s := StorageBytes(blocks, palette);
      && |s| > 0 && s[0] % 2 == 1 && BitsFor(s[0] / 2, |palette|)
      && ClientIndex(s, 256 * x + 16 * z + y) == blocks[Index(x, y, z)] < |palette|
      && ClientPalette(s) == [2 * |palette|] + Doubled(palette)
  {
    hide CeilLog2, NoRepeats, Pow2, Below, VersionFor, ClientIndex, ClientPalette, StorageBytes, PaletteBytes, WordsBytes, BitsFor, VersionOk, Doubled, StateAt, Index;
    IndexOrder(x, y, z);
    var v := VersionFor(CeilLog2(|palette|));
    StatesBelow(blocks, palette);
    VersionParts(|palette|);
    StorageParts(blocks, palette);
    var p := Index(x, y, z);
    StateRead(blocks, v, p);
    PaletteSpelled(palette);
    ClientReads(StorageBytes(blocks, palette), v, WordsBytes(blocks, v, v.words), PaletteBytes(palette), p);
  }

  lemma IndexOrder(x: nat, y: nat, z: nat)
    requires x < 16 && y < 16 && z < 16
    ensures Index(x, y, z) == 256 * x + 16 * z + y < BLOCKS
  {
  }

  lemma StorageParts(blocks: seq<nat>, palette: seq<int>)
    requires Sendable(blocks, palette)
    ensures var v := VersionFor(CeilLog2(|palette|));
      v.bits <= 16 && StorageBytes(blocks, palette) == [2 * v.bits + 1] + (WordsBytes(blocks, v, v.words) + PaletteBytes(palette))
  {
    hide CeilLog2, NoRepeats, Pow2, VersionFor, PaletteBytes, WordsBytes;
    VersionFits(|palette|);
  }

  lemma ClientReads(s: seq<byte>, v: Version, words: seq<byte>, rest: seq<byte>, p: nat)
    requires 0 < v.bits <= 16 && v.perWord == 32 / v.bits && v.perWord > 0 && v.words == (4095 + v.perWord) / v.perWord
    requires |words| == 4 * v.words && s == [2 * v.bits + 1] + (words + rest) && 4 * (p / v.perWord) + 4 <= |words|
    ensures s[0] == 2 * v.bits + 1 && ClientIndex(s, p) == StateAt(words, v, p) && ClientPalette(s) == GroupNumbers(rest)
  {
    hide FromLe, Pow2, GroupNumbers, ClientIndex, ClientPalette, StateAt;
    QuotientNat(p, v.perWord);
    var k := p / v.perWord;
    WordBehind(s, 2 * v.bits + 1, words, rest, k);
    assert s[0] as nat / 2 == v.bits;
    OneIndex(s, v, words, p, k);
    OnePalette(s, v, words, rest);
  }

  lemma OneIndex(s: seq<byte>, v: Version, words: seq<byte>, p: nat, k: nat)
    requires |s| > 0 && 0 < v.bits <= 16 && v.bits == s[0] as nat / 2 && v.perWord == 32 / v.bits && v.perWord > 0
    requires k == p / v.perWord && 5 + 4 * k <= |s| && 4 * k + 4 <= |words| && s[1 + 4 * k..5 + 4 * k] == words[4 * k..4 * k + 4]
    ensures ClientIndex(s, p) == StateAt(words, v, p)
  {
    hide FromLe, Pow2;
    assert WordBytes(s, k) == words[4 * k..4 * k + 4];
  }

  lemma OnePalette(s: seq<byte>, v: Version, words: seq<byte>, rest: seq<byte>)
    requires |s| > 0 && 0 < v.bits <= 16 && v.bits == s[0] as nat / 2 && v.perWord == 32 / v.bits && v.perWord > 0
    requires |words| == 4 * ((4095 + v.perWord) / v.perWord) && 1 + |words| <= |s| && s[1 + |words|..] == rest
    ensures ClientPalette(s) == GroupNumbers(rest)
  {
    hide GroupNumbers;
  }

  lemma WordBehind(s: seq<byte>, first: byte, words: seq<byte>, rest: seq<byte>, k: nat)
    requires s == [first] + (words + rest) && 4 * k + 4 <= |words|
    ensures s[0] == first && s[1 + 4 * k..5 + 4 * k] == words[4 * k..4 * k + 4] && s[1 + |words|..] == rest
  {
  }

  lemma PaletteSpelled(palette: seq<int>)
    requires |palette| <= 65536 && AllInRange(palette, TWO_32)
    ensures GroupNumbers(PaletteBytes(palette)) == [2 * |palette|] + Doubled(palette)
  {
    hide VarBytes, IntsBytes;
    IntsSpelled(palette);
    GroupNumbersCons(ZigZag(|palette|), IntsBytes(palette, NetworkEndian));
  }

  lemma VersionParts(size: nat)
    requires 0 < size <= 65536
    ensures var v := VersionFor(CeilLog2(size));
      BitsFor(v.bits, size) && v.bits > 0 && v.perWord == 32 / v.bits && v.perWord > 0 && v.words == (4095 + v.perWord) / v.perWord
  {
    hide Pow2, CeilLog2;
    VersionFits(size);
    SixAndEight();
    LeastBits(size);
  }

  /** So many bits are needed and no fewer. */
  lemma LeastBits(size: nat)
    requires size > 0
    ensures var k := CeilLog2(size);
      (k > 8 ==> size > Pow2(8)) && (k > 6 ==> size > Pow2(6)) && (k > 0 ==> size > Pow2(k - 1))
  {
    hide Pow2;
    var k := CeilLog2(size);
    if k > 8 {
      Pow2Monotone(8, k - 1);
    }
    if k > 6 {
      Pow2Monotone(6, k - 1);
    }
  }

  lemma SixAndEight()
    ensures Pow2(8) == 256 && Pow2(6) == 64
  {
  }
}
