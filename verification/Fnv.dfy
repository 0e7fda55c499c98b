/** The FNV-1a hasher of crates/graphnight-sql/src/cache.rs, and its copy in
    crates/graphnight-server/src/rate_limit.rs.  Words are 64 bits wide: multiplication wraps around. */
module Fnv {
  const WORDS: nat := 0x1_0000_0000_0000_0000
  const OFFSET_BASIS: Word := 0xcbf29ce484222325
  const PRIME: nat := 0x100000001b3
  const PRIME_INVERSE: nat := 0xce965057aff6957b

  type Word = w: nat | w < 0x1_0000_0000_0000_0000

  type Byte = b: nat | b < 256

  function Xor(a: nat, b: nat): nat {
    if a == 0 && b == 0 then 0 else 2 * Xor(a / 2, b / 2) + (a + b) % 2
  }

  function Pow2(n: nat): nat {
    if n == 0 then 1 else 2 * Pow2(n - 1)
  }

  lemma {:induction false} XorBound(a: nat, b: nat, n: nat)
    requires a < Pow2(n) && b < Pow2(n)
    ensures Xor(a, b) < Pow2(n)
    decreases n
  {
    if n > 0 && (a > 0 || b > 0) {
      XorBound(a / 2, b / 2, n - 1);
    }
  }

  lemma Pow2Of64()
    ensures Pow2(64) == WORDS
  {
    assert Pow2(8) == 0x100;
    assert Pow2(16) == 0x1_0000;
    assert Pow2(24) == 0x100_0000;
    assert Pow2(32) == 0x1_0000_0000;
    assert Pow2(40) == 0x100_0000_0000;
    assert Pow2(48) == 0x1_0000_0000_0000;
    assert Pow2(56) == 0x100_0000_0000_0000;
  }

  function XorWord(w: Word, b: Byte): Word {
    Pow2Of64();
    XorBound(w, b, 64);
    Xor(w, b)
  }

  function WrappingMul(w: Word, factor: nat): Word {
    w * factor % WORDS
  }

  /** One byte folded into the state: exclusive or, then multiplication by the FNV prime. */
  function FeedByte(state: Word, byte: Byte): Word {
    WrappingMul(XorWord(state, byte), PRIME)
  }

  function Feed(state: Word, bytes: seq<Byte>): Word {
    if bytes == [] then state else FeedByte(Feed(state, bytes[..|bytes| - 1]), bytes[|bytes| - 1])
  }

  function UnfeedByte(state: Word, byte: Byte): Word {
    XorWord(WrappingMul(state, PRIME_INVERSE), byte)
  }

  function Unfeed(state: Word, bytes: seq<Byte>): Word
    decreases |bytes|
  {
    if bytes == [] then state else Unfeed(UnfeedByte(state, bytes[|bytes| - 1]), bytes[..|bytes| - 1])
  }

  // ---------- the published values ----------

  /** The 64-bit FNV-1a digests of the empty text and of "a". */
  lemma PublishedDigests(bytes: seq<Byte>)
    ensures bytes == [] ==> Feed(OFFSET_BASIS, bytes) == 0xcbf29ce484222325
    ensures |bytes| == 1 && bytes[0] == 0x61 ==> Feed(OFFSET_BASIS, bytes) == 0xaf63dc4c8601ec8c
  {
    if |bytes| == 1 && bytes[0] == 0x61 {
      FeedOne(0xcbf29ce4842223, 0x25, OFFSET_BASIS, bytes);
      LowBits();
      Product();
    }
  }

  lemma LowBits()
    ensures Xor(0x25, 0x61) == 0x44
  {
    XorStep(0, 1);
    XorStep(1, 3);
    XorStep(2, 6);
    XorStep(4, 12);
    XorStep(9, 24);
    XorStep(18, 48);
    XorStep(37, 97);
  }

  lemma Product()
    ensures (256 * 0xcbf29ce4842223 + 0x44) * PRIME % WORDS == 0xaf63dc4c8601ec8c
  {
  }

  lemma FeedOne(high: nat, low: nat, state: Word, bytes: seq<Byte>)
    requires state == 256 * high + low && low < 256 && |bytes| == 1
    ensures Feed(state, bytes) == (256 * high + Xor(low, bytes[0])) * PRIME % WORDS
  {
    FeedSingle(state, bytes);
    XorLow(high, low, bytes[0]);
  }

  lemma FeedSingle(state: Word, bytes: seq<Byte>)
    requires |bytes| == 1
    ensures Feed(state, bytes) == FeedByte(state, bytes[0])
  {
  }

  function Shifted(high: nat, n: nat): nat {
    if n == 0 then high else 2 * Shifted(high, n - 1)
  }

  lemma ShiftedTwice(high: nat, n: nat)
    ensures Shifted(high, 0) == high && Shifted(high, n + 2) == 4 * Shifted(high, n)
  {
  }

  /** A byte touches no bit above its own. */
  lemma XorLow(high: nat, low: nat, byte: nat)
    requires low < 256 && byte < 256
    ensures Xor(256 * high + low, byte) == 256 * high + Xor(low, byte)
  {
    assert Pow2(8) == 256;
    ShiftedTwice(high, 0);
    ShiftedTwice(high, 2);
    ShiftedTwice(high, 4);
    ShiftedTwice(high, 6);
    XorShifted(high, low, byte, 8);
  }

  lemma {:induction false} XorZero(a: nat)
    ensures Xor(a, 0) == a
  {
    if a > 0 {
      XorZero(a / 2);
    }
  }

  lemma {:induction false} XorShifted(high: nat, low: nat, b: nat, n: nat)
    requires low < Pow2(n) && b < Pow2(n)
    ensures Xor(Shifted(high, n) + low, b) == Shifted(high, n) + Xor(low, b)
    decreases n
  {
    if n == 0 {
      XorZero(high);
    } else {
      XorShifted(high, low / 2, b / 2, n - 1);
      XorLowStep(Shifted(high, n - 1), low, b);
    }
  }

  lemma XorLowStep(h: nat, low: nat, b: nat)
    requires Xor(h + low / 2, b / 2) == h + Xor(low / 2, b / 2)
    ensures Xor(2 * h + low, b) == 2 * h + Xor(low, b)
  {
    var a := 2 * h + low;
    Halves(h, low, b);
    XorStep(a, b);
    XorStep(low, b);
    assert Xor(a / 2, b / 2) == h + Xor(low / 2, b / 2);
  }

  lemma Halves(h: nat, low: nat, b: nat)
    ensures (2 * h + low) / 2 == h + low / 2 && (2 * h + low + b) % 2 == (low + b) % 2
  {
  }

  // ---------- no state is lost ----------

  /** The FNV prime is odd, so multiplying by it can be undone modulo 2^64. */
  lemma TimesInverse(w: Word)
    ensures WrappingMul(WrappingMul(w, PRIME), PRIME_INVERSE) == w
  {
    var carry := w * PRIME / WORDS;
    var excess := PRIME * PRIME_INVERSE / WORDS;
    assert PRIME * PRIME_INVERSE == 1 + excess * WORDS;
    assert WrappingMul(w, PRIME) == w * PRIME - carry * WORDS;
    assert WrappingMul(w, PRIME) * PRIME_INVERSE == w + (w * excess - carry * PRIME_INVERSE) * WORDS;
    SmallRemainder(w, w * excess - carry * PRIME_INVERSE);
  }

  lemma SmallRemainder(w: Word, k: int)
    ensures (w + k * WORDS) % WORDS == w
  {
  }

  lemma XorStep(a: nat, b: nat)
    ensures Xor(a, b) == 2 * Xor(a / 2, b / 2) + (a + b) % 2
    ensures Xor(a, b) / 2 == Xor(a / 2, b / 2) && Xor(a, b) % 2 == (a + b) % 2
  {
  }

  lemma TwiceTheBit(h: nat, a: nat, b: nat)
    ensures (2 * h + (a + b) % 2 + b) % 2 == a % 2
  {
  }

  lemma {:induction false} XorTwice(a: nat, b: nat)
    ensures Xor(Xor(a, b), b) == a
  {
    if a > 0 || b > 0 {
      var h, x := Xor(a / 2, b / 2), Xor(a, b);
      XorTwice(a / 2, b / 2);
      XorStep(a, b);
      XorStep(x, b);
      TwiceTheBit(h, a, b);
      calc {
        Xor(x, b);
        2 * Xor(x / 2, b / 2) + (x + b) % 2;
        2 * Xor(h, b / 2) + a % 2;
        2 * (a / 2) + a % 2;
        a;
      }
    }
  }

  lemma {:induction false} XorCancels(x: nat, a: nat, b: nat)
    requires Xor(x, a) == Xor(x, b)
    ensures a == b
    decreases x + a + b
  {
    if x > 0 || a > 0 || b > 0 {
      XorStep(x, a);
      XorStep(x, b);
      XorCancels(x / 2, a / 2, b / 2);
      SameParity(x, a, b);
    }
  }

  lemma SameParity(x: nat, a: nat, b: nat)
    requires (x + a) % 2 == (x + b) % 2
    ensures a % 2 == b % 2
  {
  }

  lemma UnfeedByteUndoes(state: Word, byte: Byte)
    ensures UnfeedByte(FeedByte(state, byte), byte) == state
  {
    TimesInverse(XorWord(state, byte));
    XorTwice(state, byte);
  }

  /** Feeding is undone by walking back over the same bytes. */
  lemma {:induction false} UnfeedUndoesFeed(state: Word, bytes: seq<Byte>)
    ensures Unfeed(Feed(state, bytes), bytes) == state
  {
    if bytes != [] {
      UnfeedByteUndoes(Feed(state, bytes[..|bytes| - 1]), bytes[|bytes| - 1]);
      UnfeedUndoesFeed(state, bytes[..|bytes| - 1]);
    }
  }

  /** Feeding pieces is feeding their concatenation. */
  lemma {:induction false} FeedConcat(state: Word, a: seq<Byte>, b: seq<Byte>)
    ensures Feed(state, a + b) == Feed(Feed(state, a), b)
  {
    if b == [] {
      assert a + b == a;
    } else {
      var n := |b| - 1;
      assert (a + b)[..|a + b| - 1] == a + b[..n];
      FeedConcat(state, a, b[..n]);
    }
  }

  /** Distinct states stay distinct under any common suffix. */
  lemma DistinctStatesStayDistinct(s: Word, t: Word, suffix: seq<Byte>)
    requires s != t
    ensures Feed(s, suffix) != Feed(t, suffix)
  {
    UnfeedUndoesFeed(s, suffix);
    UnfeedUndoesFeed(t, suffix);
  }

  lemma DistinctBytesGiveDistinctStates(state: Word, a: Byte, b: Byte)
    requires a != b
    ensures FeedByte(state, a) != FeedByte(state, b)
  {
    TimesInverse(XorWord(state, a));
    TimesInverse(XorWord(state, b));
    if FeedByte(state, a) == FeedByte(state, b) {
      XorCancels(state, a, b);
    }
  }

  /** Two keys of equal length that differ in exactly one byte never collide. */
  lemma OneByteNeverCollides(key: seq<Byte>, i: nat, byte: Byte)
    requires i < |key| && byte != key[i]
    ensures Feed(OFFSET_BASIS, key[i := byte]) != Feed(OFFSET_BASIS, key)
  {
    var before, after := key[..i], key[i + 1..];
    var changed := key[i := byte];
    assert key == (before + [key[i]]) + after && changed == (before + [byte]) + after;
    FeedConcat(OFFSET_BASIS, before + [key[i]], after);
    FeedConcat(OFFSET_BASIS, before + [byte], after);
    FeedConcat(OFFSET_BASIS, before, [key[i]]);
    FeedConcat(OFFSET_BASIS, before, [byte]);
    var state := Feed(OFFSET_BASIS, before);
    assert Feed(state, [key[i]]) == FeedByte(state, key[i]) && Feed(state, [byte]) == FeedByte(state, byte);
    DistinctBytesGiveDistinctStates(state, key[i], byte);
    DistinctStatesStayDistinct(FeedByte(state, key[i]), FeedByte(state, byte), after);
  }

  // ---------- keys made of parts ----------

  /** What `hash_key` feeds: every part followed by a zero byte. */
  function Terminated(parts: seq<seq<Byte>>): seq<Byte> {
    if parts == [] then [] else Terminated(parts[..|parts| - 1]) + parts[|parts| - 1] + [0]
  }

  function LastPart(stream: seq<Byte>): nat
    ensures LastPart(stream) <= |stream|
  {
    if stream == [] || stream[|stream| - 1] == 0 then |stream| else LastPart(stream[..|stream| - 1])
  }

  lemma {:induction false} LastPartOf(front: seq<Byte>, part: seq<Byte>)
    requires 0 !in part && (front == [] || front[|front| - 1] == 0)
    ensures LastPart(front + part) == |front|
  {
    if part == [] {
      assert front + part == front;
    } else {
      assert (front + part)[..|front + part| - 1] == front + part[..|part| - 1];
      LastPartOf(front, part[..|part| - 1]);
    }
  }

  lemma LastPartOfTerminated(parts: seq<seq<Byte>>)
    requires parts != [] && 0 !in parts[|parts| - 1]
    ensures var stream := Terminated(parts);
      stream != [] && LastPart(stream[..|stream| - 1]) == |Terminated(parts[..|parts| - 1])|
  {
    var front, part := Terminated(parts[..|parts| - 1]), parts[|parts| - 1];
    assert Terminated(parts)[..|Terminated(parts)| - 1] == front + part;
    LastPartOf(front, part);
  }

  /** Parts without zero bytes are recovered from the stream: such keys collide only as hashes do. */
  lemma {:induction false} TerminatedIsInjective(a: seq<seq<Byte>>, b: seq<seq<Byte>>)
    requires forall i :: 0 <= i < |a| ==> 0 !in a[i]
    requires forall i :: 0 <= i < |b| ==> 0 !in b[i]
    requires Terminated(a) == Terminated(b)
    ensures a == b
  {
    if a == [] || b == [] {
      assert a == b == [];
    } else {
      LastPartOfTerminated(a);
      LastPartOfTerminated(b);
      var k := |Terminated(a[..|a| - 1])|;
      var stream := Terminated(a);
      assert stream[..k] == Terminated(a[..|a| - 1]) && stream[k..|stream| - 1] == a[|a| - 1];
      assert stream[..k] == Terminated(b[..|b| - 1]) && stream[k..|stream| - 1] == b[|b| - 1];
      TerminatedIsInjective(a[..|a| - 1], b[..|b| - 1]);
    }
  }

  // ---------- the hasher ----------

  class FxHasher {
    var state: Word

    constructor ()
      ensures state == OFFSET_BASIS
    {
      state := OFFSET_BASIS;
    }

    method FeedU8(byte: Byte)
      modifies this
      ensures state == FeedByte(old(state), byte)
    {
      state := XorWord(state, byte);
      state := WrappingMul(state, PRIME);
    }

    method FeedBytes(bytes: seq<Byte>)
      modifies this
      ensures state == Feed(old(state), bytes)
    {
      for i := 0 to |bytes|
        invariant state == Feed(old(state), bytes[..i])
      {
        assert bytes[..i + 1][..i] == bytes[..i];
        FeedU8(bytes[i]);
      }
      assert bytes[..|bytes|] == bytes;
    }

    function Digest(): Word
      reads this
    {
      state
    }
  }

  method HashBytes(bytes: seq<Byte>) returns (h: Word)
    ensures h == Feed(OFFSET_BASIS, bytes)
  {
    var hasher := new FxHasher();
    hasher.FeedBytes(bytes);
    h := hasher.Digest();
  }

  method HashKey(parts: seq<seq<Byte>>) returns (h: Word)
    ensures h == Feed(OFFSET_BASIS, Terminated(parts))
  {
    var hasher := new FxHasher();
    for i := 0 to |parts|
      invariant fresh(hasher)
      invariant hasher.state == Feed(OFFSET_BASIS, Terminated(parts[..i]))
    {
      assert parts[..i + 1][..i] == parts[..i];
      hasher.FeedBytes(parts[i]);
      FeedConcat(OFFSET_BASIS, Terminated(parts[..i]), parts[i]);
      hasher.FeedU8(0);
      FeedConcat(OFFSET_BASIS, Terminated(parts[..i]) + parts[i], [0]);
      assert Feed(Feed(OFFSET_BASIS, Terminated(parts[..i]) + parts[i]), [0])
          == FeedByte(Feed(OFFSET_BASIS, Terminated(parts[..i]) + parts[i]), 0);
    }
    assert parts[..|parts|] == parts;
    h := hasher.Digest();
  }

  /** The rate limiter's own loop: the same hash. */
  method SimpleHash(bytes: seq<Byte>) returns (h: Word)
    ensures h == Feed(OFFSET_BASIS, bytes)
  {
    h := 0xcbf29ce484222325;
    for i := 0 to |bytes|
      invariant h == Feed(OFFSET_BASIS, bytes[..i])
    {
      assert bytes[..i + 1][..i] == bytes[..i];
      h := XorWord(h, bytes[i]);
      h := WrappingMul(h, PRIME);
    }
    assert bytes[..|bytes|] == bytes;
  }
}
