/** The C library replacements of the R82 demos: memmove, memcpy and memset over
    one flat byte memory.  Addresses are indices of the memory array, so two
    pointers may alias, overlap or be arbitrarily aligned.

    ISO/IEC 9899:2011, sections 7.24.2.1, 7.24.2.2 and 7.24.6.1. */
module FlatMemory {

  type Byte = b: nat | b < 256

  const WORD_LIMIT: nat := 0x1_0000_0000_0000_0000
  const BYTE_SPREAD: nat := 0x0101_0101_0101_0101

  // ---------- words and bytes ----------

  /** The value of a little-endian group of bytes. */
  function WordOf(bytes: seq<Byte>): nat {
    if bytes == [] then 0 else bytes[0] + 256 * WordOf(bytes[1..])
  }

  /** The n low-order bytes of a value, least significant first. */
  function BytesOf(w: nat, n: nat): (bytes: seq<Byte>)
    ensures |bytes| == n
  {
    if n == 0 then [] else [w % 256] + BytesOf(w / 256, n - 1)
  }

  function Pow256(n: nat): nat {
    if n == 0 then 1 else 256 * Pow256(n - 1)
  }

  lemma LowByte(b: Byte, rest: nat)
    ensures (b + 256 * rest) % 256 == b && (b + 256 * rest) / 256 == rest
  {}

  /** Loading a word and storing it again reproduces every byte, and no bit is lost. */
  lemma {:induction false} WordRoundTrip(bytes: seq<Byte>)
    ensures BytesOf(WordOf(bytes), |bytes|) == bytes
    ensures WordOf(bytes) < Pow256(|bytes|)
  {
    if bytes != [] {
      WordRoundTrip(bytes[1..]);
      LowByte(bytes[0], WordOf(bytes[1..]));
      assert bytes == [bytes[0]] + bytes[1..];
    }
  }

  lemma EightByteWordFits(bytes: seq<Byte>)
    requires |bytes| == 8
    ensures WordOf(bytes) < WORD_LIMIT
  {
    WordRoundTrip(bytes);
    assert Pow256(8) == 256 * (256 * (256 * (256 * Pow256(4))));
    assert Pow256(4) == 256 * (256 * (256 * (256 * Pow256(0))));
  }

  function Repeat(v: Byte, n: nat): (bytes: seq<Byte>)
    ensures |bytes| == n && forall i :: 0 <= i < n ==> bytes[i] == v
  {
    seq(n, _ => v)
  }

  /** Multiplying a byte by 0x0101010101010101 does not overflow 64 bits, and the
      product holds that byte, and only that byte, in each of its eight places. */
  lemma SpreadIsRepeat(v: Byte)
    ensures BYTE_SPREAD * v < WORD_LIMIT
    ensures BytesOf(BYTE_SPREAD * v, 8) == Repeat(v, 8)
  {
    var bytes := Repeat(v, 8);
    WordRoundTrip(bytes);
    SpreadIsWordOfRepeat(v, 8);
    assert Spread(8) == 1 + 256 * (1 + 256 * (1 + 256 * (1 + 256 * Spread(4))));
    assert Spread(4) == 1 + 256 * (1 + 256 * (1 + 256 * (1 + 256 * Spread(0))));
  }

  function Spread(n: nat): nat {
    if n == 0 then 0 else 1 + 256 * Spread(n - 1)
  }

  lemma {:induction false} SpreadIsWordOfRepeat(v: Byte, n: nat)
    ensures WordOf(Repeat(v, n)) == Spread(n) * v
  {
    if n > 0 {
      SpreadIsWordOfRepeat(v, n - 1);
      assert Repeat(v, n)[1..] == Repeat(v, n - 1);
      SpreadStep(Spread(n - 1), v);
    }
  }

  lemma SpreadStep(a: nat, v: nat)
    ensures (1 + 256 * a) * v == v + 256 * (a * v)
  {}

  // ---------- the reference meaning ----------

  /** Memory m with the bytes bs written from address d onwards. */
  function Put(m: seq<Byte>, d: nat, bs: seq<Byte>): (r: seq<Byte>)
    requires d + |bs| <= |m|
    ensures |r| == |m|
  {
    m[..d] + bs + m[d + |bs|..]
  }

  /** Every destination byte holds the old source byte; every other byte is unchanged. */
  function Moved(m: seq<Byte>, dest: nat, src: nat, count: nat): (r: seq<Byte>)
    requires dest + count <= |m| && src + count <= |m|
    ensures |r| == |m|
  {
    seq(|m|, a requires 0 <= a < |m| => if dest <= a < dest + count then m[src + (a - dest)] else m[a])
  }

  /** Every destination byte holds v; every other byte is unchanged. */
  function Filled(m: seq<Byte>, dest: nat, v: Byte, count: nat): (r: seq<Byte>)
    ensures |r| == |m|
  {
    seq(|m|, a requires 0 <= a < |m| => if dest <= a < dest + count then v else m[a])
  }

  /** The standard's own wording: the characters are first copied out, as into
      a temporary array, and only then written to the destination. */
  lemma MovedIsReadThenWrite(m: seq<Byte>, dest: nat, src: nat, count: nat)
    requires dest + count <= |m| && src + count <= |m|
    ensures Moved(m, dest, src, count) == Put(m, dest, m[src..src + count])
  {}

  lemma FilledIsPut(m: seq<Byte>, dest: nat, v: Byte, count: nat)
    requires dest + count <= |m|
    ensures Filled(m, dest, v, count) == Put(m, dest, Repeat(v, count))
  {}

  predicate IsEightByteAligned(addr: nat) { addr % 8 == 0 }

  /** Whether memmove takes its word loop: forward copies look at the starts of
      the two regions, backward copies at their ends. */
  predicate MoveUsesWords(dest: nat, src: nat, count: nat) {
    if dest < src then IsEightByteAligned(dest) && IsEightByteAligned(src)
    else IsEightByteAligned(dest + count) && IsEightByteAligned(src + count)
  }

  /** When both pointers are aligned, a move downwards always uses words, but a
      move upwards only if the count is a multiple of eight. */
  lemma AlignedMove(dest: nat, src: nat, count: nat)
    requires IsEightByteAligned(dest) && IsEightByteAligned(src) && dest != src
    ensures MoveUsesWords(dest, src, count) <==> dest < src || count % 8 == 0
  {}

  /** Nine bytes moved upwards between aligned addresses take nine byte steps. */
  lemma AlignedMoveByBytes()
    ensures IsEightByteAligned(8) && IsEightByteAligned(0) && !MoveUsesWords(8, 0, 9)
    ensures StepCounts(MoveUsesWords(8, 0, 9), 9, 0, 9)
  {}

  /** How many 8-byte and 1-byte steps a call takes. */
  ghost predicate StepCounts(fast: bool, count: nat, words: nat, bytes: nat) {
    if fast then words == count / 8 && bytes == count % 8 else words == 0 && bytes == count
  }

  /** The steps cover the count exactly, with fewer than eight byte steps on the
      fast path and no word step on the other. */
  lemma StepsCover(fast: bool, count: nat, words: nat, bytes: nat)
    ensures StepCounts(fast, count, words, bytes) <==>
            8 * words + bytes == count && if fast then bytes < 8 else words == 0
  {}

  lemma WordSteps(count: nat, words: nat, left: nat)
    requires count == 8 * words + left && left < 8
    ensures words == count / 8 && left == count % 8
  {}

  lemma MovedNothing(m: seq<Byte>, dest: nat, src: nat, count: nat)
    requires dest + count <= |m| && src + count <= |m| && (dest == src || count == 0)
    ensures Moved(m, dest, src, count) == m
  {}

  /** Moving n bytes forward and then k more: the part already written lies
      below the part still to be read. */
  lemma ForwardJoin(m: seq<Byte>, dest: nat, src: nat, n: nat, k: nat)
    requires dest < src && src + n + k <= |m|
    ensures Moved(Moved(m, dest, src, n), dest + n, src + n, k) == Moved(m, dest, src, n + k)
  {}

  /** Moving the upper n bytes and then the k below them: the part already
      written lies above the part still to be read. */
  lemma BackwardJoin(m: seq<Byte>, dest: nat, src: nat, k: nat, n: nat)
    requires src < dest && dest + k + n <= |m|
    ensures Moved(Moved(m, dest + k, src + k, n), dest, src, k) == Moved(m, dest, src, k + n)
  {}

  lemma FillJoin(m: seq<Byte>, dest: nat, v: Byte, n: nat, k: nat)
    ensures Filled(Filled(m, dest, v, n), dest + n, v, k) == Filled(m, dest, v, n + k)
  {}

  /** Moving a block away and back between disjoint regions restores it, even
      if the original place was overwritten in between. */
  lemma MoveBackRestores(m: seq<Byte>, m': seq<Byte>, dest: nat, src: nat, count: nat)
    requires dest + count <= |m| && src + count <= |m| && |m'| == |m|
    requires dest + count <= src || src + count <= dest
    requires forall a :: 0 <= a < |m| && !(src <= a < src + count) ==> m'[a] == Moved(m, dest, src, count)[a]
    ensures Moved(m', src, dest, count) == Moved(m, dest, src, count)
  {
    var r := Moved(m, dest, src, count);
    var back := Moved(m', src, dest, count);
    forall a | 0 <= a < |m|
      ensures back[a] == r[a]
    {
      if src <= a < src + count {
        assert back[a] == m'[dest + (a - src)] == r[dest + (a - src)];
      }
    }
  }

  // ---------- memory accesses ----------

  // A word access needs an 8-byte aligned address; that every call below meets
  // this precondition is part of what is proved.

  method LoadWord(mem: array<Byte>, addr: nat) returns (w: nat)
    requires addr % 8 == 0 && addr + 8 <= mem.Length
    ensures w == WordOf(mem[..][addr..addr + 8]) && w < WORD_LIMIT
  {
    var bytes := mem[..][addr..addr + 8];
    EightByteWordFits(bytes);
    w := WordOf(bytes);
  }

  method StoreWord(mem: array<Byte>, addr: nat, w: nat)
    requires addr % 8 == 0 && addr + 8 <= mem.Length && w < WORD_LIMIT
    modifies mem
    ensures mem[..] == Put(old(mem[..]), addr, BytesOf(w, 8))
  {
    PutBytes(mem, addr, BytesOf(w, 8));
  }

  method PutBytes(mem: array<Byte>, addr: nat, bytes: seq<Byte>)
    requires addr + |bytes| <= mem.Length
    modifies mem
    ensures mem[..] == Put(old(mem[..]), addr, bytes)
  {
    for i := 0 to |bytes|
      invariant forall a {:trigger mem[a]} :: 0 <= a < mem.Length ==>
                              mem[a] == if addr <= a < addr + i then bytes[a - addr] else old(mem[a])
    {
      mem[addr + i] := bytes[i];
    }
  }

  method CopyWord(mem: array<Byte>, dest: nat, src: nat)
    requires IsEightByteAligned(dest) && IsEightByteAligned(src)
    requires dest + 8 <= mem.Length && src + 8 <= mem.Length
    modifies mem
    ensures mem[..] == Moved(old(mem[..]), dest, src, 8)
  {
    ghost var m := mem[..];
    var w := LoadWord(mem, src);
    WordRoundTrip(m[src..src + 8]);
    StoreWord(mem, dest, w);
    MovedIsReadThenWrite(m, dest, src, 8);
  }

  method FillWord(mem: array<Byte>, dest: nat, v: Byte, pattern: nat)
    requires IsEightByteAligned(dest) && dest + 8 <= mem.Length && pattern == BYTE_SPREAD * v
    modifies mem
    ensures mem[..] == Filled(old(mem[..]), dest, v, 8)
  {
    ghost var m := mem[..];
    SpreadIsRepeat(v);
    StoreWord(mem, dest, pattern);
    FilledIsPut(m, dest, v, 8);
  }

  // ---------- the library functions ----------

  // The loops of memmove and memset, one method each: a word loop stops with
  // fewer than eight bytes left, and the byte loop finishes the job.

  /** A word step from memory contents m to contents r. */
  method NextWord(mem: array<Byte>, ghost m: seq<Byte>, ghost r: seq<Byte>, d: nat, s: nat)
    requires d + 8 <= mem.Length == |m| && s + 8 <= |m| && IsEightByteAligned(d) && IsEightByteAligned(s)
    requires mem[..] == m && r == Moved(m, d, s, 8)
    modifies mem
    ensures mem[..] == r
  {
    CopyWord(mem, d, s);
  }

  method WordsForward(mem: array<Byte>, dest: nat, src: nat, count: nat) returns (left: nat, ghost words: nat)
    requires dest < src && src + count <= mem.Length && IsEightByteAligned(dest) && IsEightByteAligned(src)
    modifies mem
    ensures words == count / 8 && left == count % 8
    ensures mem[..] == Moved(old(mem[..]), dest, src, count - left)
  {
    ghost var m, done: nat := mem[..], 0;
    var d: nat, s: nat := dest, src;
    left, words := count, 0;
    MovedNothing(m, dest, src, 0);
    while left >= 8
      invariant left + done == count && d == dest + done && s == src + done && done == 8 * words
      invariant IsEightByteAligned(d) && IsEightByteAligned(s)
      invariant mem[..] == Moved(m, dest, src, done)
    {
      ForwardJoin(m, dest, src, done, 8);
      NextWord(mem, Moved(m, dest, src, done), Moved(m, dest, src, done + 8), d, s);
      d, s, left, done, words := d + 8, s + 8, left - 8, done + 8, words + 1;
    }
    WordSteps(count, words, left);
  }

  /** Finishes a forward move of m of which the first done bytes are in place. */
  method BytesForward(mem: array<Byte>, ghost m: seq<Byte>, dest: nat, src: nat, done: nat, count: nat)
    returns (ghost bytes: nat)
    requires dest < src && src + count <= mem.Length == |m| && done <= count
    requires mem[..] == Moved(m, dest, src, done)
    modifies mem
    ensures mem[..] == Moved(m, dest, src, count) && bytes == count - done
  {
    var d: nat, s: nat, left: nat := dest + done, src + done, count - done;
    bytes := 0;
    assert forall a :: 0 <= a < mem.Length ==> mem[a] == Moved(m, dest, src, done)[a];
    while left > 0
      invariant left + done + bytes == count && d == dest + done + bytes && s == src + done + bytes
      invariant forall a {:trigger mem[a]} :: 0 <= a < mem.Length ==>
                              mem[a] == if dest <= a < d then m[src + (a - dest)] else m[a]
    {
      mem[d] := mem[s];
      d, s, left, bytes := d + 1, s + 1, left - 1, bytes + 1;
    }
  }

  method WordsBackward(mem: array<Byte>, dest: nat, src: nat, count: nat) returns (left: nat, ghost words: nat)
    requires src < dest && dest + count <= mem.Length
    requires IsEightByteAligned(dest + count) && IsEightByteAligned(src + count)
    modifies mem
    ensures words == count / 8 && left == count % 8
    ensures mem[..] == Moved(old(mem[..]), dest + left, src + left, count - left)
  {
    ghost var m, done: nat := mem[..], 0;
    var d: nat, s: nat := dest + count, src + count;
    left, words := count, 0;
    MovedNothing(m, d, s, 0);
    while left >= 8
      invariant left + done == count && d == dest + left && s == src + left && done == 8 * words
      invariant IsEightByteAligned(d) && IsEightByteAligned(s)
      invariant mem[..] == Moved(m, d, s, done)
    {
      d, s, left := d - 8, s - 8, left - 8;
      WordDown(mem, m, done, d, s);
      done, words := 8 + done, words + 1;
    }
    WordSteps(count, words, left);
  }

  /** The word step below the done bytes already moved down to d + 8. */
  method WordDown(mem: array<Byte>, ghost m: seq<Byte>, ghost done: nat, d: nat, s: nat)
    requires s < d && d + 8 + done <= mem.Length == |m|
    requires IsEightByteAligned(d + 8) && IsEightByteAligned(s + 8)
    requires mem[..] == Moved(m, d + 8, s + 8, done)
    modifies mem
    ensures mem[..] == Moved(m, d, s, 8 + done) && IsEightByteAligned(d) && IsEightByteAligned(s)
  {
    BackwardJoin(m, d, s, 8, done);
    NextWord(mem, Moved(m, d + 8, s + 8, done), Moved(m, d, s, 8 + done), d, s);
  }

  /** Finishes a backward move of m of which only the first count bytes are missing. */
  method BytesBackward(mem: array<Byte>, ghost m: seq<Byte>, dest: nat, src: nat, count: nat, ghost done: nat)
    returns (ghost bytes: nat)
    requires src < dest && dest + count + done <= mem.Length == |m|
    requires mem[..] == Moved(m, dest + count, src + count, done)
    modifies mem
    ensures mem[..] == Moved(m, dest, src, count + done) && bytes == count
  {
    var d: nat, s: nat, left: nat := dest + count, src + count, count;
    bytes := 0;
    assert forall a :: 0 <= a < mem.Length ==> mem[a] == Moved(m, dest + count, src + count, done)[a];
    while left > 0
      invariant left + bytes == count && d == dest + left && s == src + left
      invariant forall a {:trigger mem[a]} :: 0 <= a < mem.Length ==>
                              mem[a] == if d <= a < dest + count + done then m[src + (a - dest)] else m[a]
    {
      d, s, left, bytes := d - 1, s - 1, left - 1, bytes + 1;
      mem[d] := mem[s];
    }
  }

  method FillWords(mem: array<Byte>, dest: nat, v: Byte, count: nat) returns (left: nat, ghost words: nat)
    requires dest + count <= mem.Length && IsEightByteAligned(dest)
    modifies mem
    ensures words == count / 8 && left == count % 8
    ensures mem[..] == Filled(old(mem[..]), dest, v, count - left)
  {
    ghost var m, done: nat := mem[..], 0;
    var pattern := BYTE_SPREAD * v;
    var d: nat := dest;
    left, words := count, 0;
    assert mem[..] == Filled(m, dest, v, 0);
    while left >= 8
      invariant left + done == count && d == dest + done && done == 8 * words && IsEightByteAligned(d)
      invariant mem[..] == Filled(m, dest, v, done)
    {
      FillWord(mem, d, v, pattern);
      FillJoin(m, dest, v, done, 8);
      d, left, done, words := d + 8, left - 8, done + 8, words + 1;
    }
    WordSteps(count, words, left);
  }

  method FillBytes(mem: array<Byte>, dest: nat, v: Byte, count: nat) returns (ghost bytes: nat)
    requires dest + count <= mem.Length
    modifies mem
    ensures mem[..] == Filled(old(mem[..]), dest, v, count) && bytes == count
  {
    var d: nat, left: nat := dest, count;
    bytes := 0;
    while left > 0
      invariant left + bytes == count && d == dest + bytes
      invariant forall a :: 0 <= a < mem.Length ==> mem[a] == if dest <= a < d then v else old(mem[a])
    {
      mem[d] := v;
      d, left, bytes := d + 1, left - 1, bytes + 1;
    }
  }

  method MoveForward(mem: array<Byte>, dest: nat, src: nat, count: nat) returns (ghost words: nat, ghost bytes: nat)
    requires dest < src && src + count <= mem.Length
    modifies mem
    ensures mem[..] == Moved(old(mem[..]), dest, src, count)
    ensures StepCounts(IsEightByteAligned(dest) && IsEightByteAligned(src), count, words, bytes)
  {
    ghost var m := mem[..];
    var left: nat := count;
    words := 0;
    MovedNothing(m, dest, src, 0);
    var fast := IsEightByteAligned(dest) && IsEightByteAligned(src);
    if fast {
      left, words := WordsForward(mem, dest, src, count);
    }
    bytes := BytesForward(mem, m, dest, src, count - left, count);
  }

  method MoveBackward(mem: array<Byte>, dest: nat, src: nat, count: nat) returns (ghost words: nat, ghost bytes: nat)
    requires src < dest && dest + count <= mem.Length
    modifies mem
    ensures mem[..] == Moved(old(mem[..]), dest, src, count)
    ensures StepCounts(IsEightByteAligned(dest + count) && IsEightByteAligned(src + count), count, words, bytes)
  {
    ghost var m := mem[..];
    var left: nat := count;
    words := 0;
    MovedNothing(m, dest + count, src + count, 0);
    var fast := IsEightByteAligned(dest + count) && IsEightByteAligned(src + count);
    if fast {
      left, words := WordsBackward(mem, dest, src, count);
    }
    bytes := BytesBackward(mem, m, dest, src, left, count - left);
  }

  /** memmove: correct for every overlap and alignment.  words and bytes count
      the 8-byte and 1-byte steps taken. */
  method MemMove(mem: array<Byte>, dest: nat, src: nat, count: nat)
    returns (ret: nat, ghost words: nat, ghost bytes: nat)
    requires dest + count <= mem.Length && src + count <= mem.Length
    modifies mem
    ensures ret == dest
    ensures mem[..] == Moved(old(mem[..]), dest, src, count)
    ensures dest == src || count == 0 ==> words == 0 && bytes == 0
    ensures dest != src ==> StepCounts(MoveUsesWords(dest, src, count), count, words, bytes)
    ensures dest < src ==> StepCounts(dest % 8 == 0 && src % 8 == 0, count, words, bytes)
    ensures dest > src ==> StepCounts((dest + count) % 8 == 0 && (src + count) % 8 == 0, count, words, bytes)
  {
    ret := dest;
    if dest == src || count == 0 {
      words, bytes := 0, 0;
      MovedNothing(mem[..], dest, src, count);
    } else if dest < src {
      words, bytes := MoveForward(mem, dest, src, count);
    } else {
      words, bytes := MoveBackward(mem, dest, src, count);
    }
  }

  /** memcpy is an alias of memmove and so needs no disjointness of its regions. */
  method MemCpy(mem: array<Byte>, dest: nat, src: nat, count: nat) returns (ret: nat)
    requires dest + count <= mem.Length && src + count <= mem.Length
    modifies mem
    ensures ret == dest && mem[..] == Moved(old(mem[..]), dest, src, count)
  {
    ghost var words, bytes;
    ret, words, bytes := MemMove(mem, dest, src, count);
  }

  /** __wrap_memset: the fill value is an int converted to unsigned char. */
  method MemSet(mem: array<Byte>, dest: nat, value: int, count: nat)
    returns (ret: nat, ghost words: nat, ghost bytes: nat)
    requires dest + count <= mem.Length
    modifies mem
    ensures ret == dest
    ensures mem[..] == Filled(old(mem[..]), dest, value % 256, count)
    ensures StepCounts(dest % 8 == 0, count, words, bytes)
  {
    ghost var m := mem[..];
    words, bytes, ret := 0, 0, dest;
    var v: Byte := value % 256;
    var left: nat := count;
    assert m == Filled(m, dest, v, 0);
    if IsEightByteAligned(dest) {
      left, words := FillWords(mem, dest, v, count);
    }
    bytes := FillBytes(mem, dest + (count - left), v, left);
    FillJoin(m, dest, v, count - left, left);
  }
}
