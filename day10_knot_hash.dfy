/** The knot hash: a circular list of bytes in which windows of given lengths are reversed,
    one after another, with a growing skip between them. Sixty-four rounds over the key's
    bytes, XOR-folded in blocks of sixteen and written in hexadecimal, give the hash. */
module KnotHash {
  import Text
  import Arith

  /** A byte: `u8`. */
  newtype byte = x: int | 0 <= x < 256

  /** The bitwise exclusive or of two bytes. */
  function Xor(a: byte, b: byte): byte
  {
    ((a as bv8) ^ (b as bv8)) as byte
  }

  /** The bytes appended to the key's own bytes. */
  const Suffix: seq<byte> := [17, 31, 73, 47, 23]

  /** The number of rounds `hash` runs over the lengths. */
  const RoundCount: nat := 64

  /** The number of bytes XOR-folded into one byte of the dense hash. */
  const BlockSize: nat := 16

  // ---------------------------------------------------------------------------------------
  // The circular list as a value

  /** The list, the current position and the skip size. */
  datatype Knot = Knot(list: seq<byte>, pos: nat, skip: nat)

  /** The list with the elements at `i` and `j` exchanged. */
  function Swap(s: seq<byte>, i: nat, j: nat): (r: seq<byte>)
    requires i < |s| && j < |s|
    ensures |r| == |s|
  {
    seq(|s|, x requires 0 <= x < |s| => if x == j then s[i] else if x == i then s[j] else s[x])
  }

  /** The list after the first `k` swaps of `process_length(len)` at position `pos`: swap
      number `i` (from 0) exchanges the elements at `pos + i` and `pos + len - 1 - i`,
      both wrapped around the list. */
  function Swaps(s: seq<byte>, pos: nat, len: nat, k: nat): (r: seq<byte>)
    requires |s| > 0 && 2 * k <= len
    ensures |r| == |s|
  {
    if k == 0 then s
    else Swap(Swaps(s, pos, len, k - 1), Wrap(pos + k - 1, |s|), Wrap(pos + len - k, |s|))
  }

  /** `get_wrapping_index`: the index with the list length subtracted until it is inside
      the list. */
  function Wrap(idx: nat, n: nat): (r: nat)
    requires n > 0
    ensures r < n
    decreases idx
  {
    if idx < n then idx else Wrap(idx - n, n)
  }

  /** `process_length(len)`: all the swaps, then the position moves on by `len + skip` and
      the skip grows by one. */
  function Process(st: Knot, len: nat): (r: Knot)
    requires |st.list| > 0
    ensures |r.list| == |st.list| && r.pos < |r.list|
  {
    Knot(Swaps(st.list, st.pos, len, len / 2), Wrap(st.pos + len + st.skip, |st.list|), st.skip + 1)
  }

  /** `run(lengths)`: the lengths processed in order. */
  function RunLengths(st: Knot, lens: seq<byte>): (r: Knot)
    requires |st.list| > 0
    ensures |r.list| == |st.list|
  {
    if lens == [] then st else Process(RunLengths(st, lens[..|lens| - 1]), lens[|lens| - 1] as nat)
  }

  /** `rounds` calls of `run` with the same lengths on one hasher. */
  function RunRounds(st: Knot, lens: seq<byte>, rounds: nat): (r: Knot)
    requires |st.list| > 0
    ensures |r.list| == |st.list|
  {
    if rounds == 0 then st else RunLengths(RunRounds(st, lens, rounds - 1), lens)
  }

  // ---------------------------------------------------------------------------------------
  // What a length does: it reverses a circular window

  /** The index `o` places after `pos`, around a list of `n` elements. */
  function At(pos: nat, o: nat, n: nat): (i: nat)
    requires pos < n && o < n
    ensures i < n
  {
    if pos + o < n then pos + o else pos + o - n
  }

  /** How many places after `pos` the index `i` lies, around a list of `n` elements. */
  function Offset(i: nat, pos: nat, n: nat): (o: nat)
    requires i < n && pos < n
    ensures o < n
  {
    if i >= pos then i - pos else i + n - pos
  }

  /** The list with the circular window of `len` elements starting at `pos` reversed: the
      element at offset `o` of the window comes from offset `len - 1 - o`. */
  function ReverseWindow(s: seq<byte>, pos: nat, len: nat): (r: seq<byte>)
    requires pos < |s| && len <= |s|
    ensures |r| == |s|
  {
    seq(|s|, i requires 0 <= i < |s| =>
      if Offset(i, pos, |s|) < len then s[At(pos, len - 1 - Offset(i, pos, |s|), |s|)] else s[i])
  }

  /** Wrapping an index is taking its remainder. */
  lemma {:induction false} WrapMod(idx: nat, n: nat)
    requires n > 0
    ensures Wrap(idx, n) == idx % n
    decreases idx
  {
    if idx < n {
      Arith.ModUnique(idx, n, 0, idx);
    } else {
      WrapMod(idx - n, n);
      Arith.ModSub(idx, n);
    }
  }

  /** Within two lengths of the list, wrapping is `At`. */
  lemma WrapAt(pos: nat, o: nat, n: nat)
    requires pos < n && o < n
    ensures Wrap(pos + o, n) == At(pos, o, n)
  {
    if pos + o >= n {
      assert Wrap(pos + o, n) == Wrap(pos + o - n, n);
    }
  }

  /** `At` and `Offset` undo each other. */
  lemma AtOffset(i: nat, pos: nat, n: nat)
    requires i < n && pos < n
    ensures At(pos, Offset(i, pos, n), n) == i
  {
  }

  /** After `k` swaps, the first `k` and the last `k` offsets of the window hold their
      mirror images and every other element is where it was. */
  lemma {:induction false} SwapsMirror(s: seq<byte>, pos: nat, len: nat, k: nat, o: nat)
    requires |s| > 0 && pos < |s| && len <= |s| && 2 * k <= len && o < |s|
    ensures Swaps(s, pos, len, k)[At(pos, o, |s|)]
         == if o < k || len - k <= o < len then s[At(pos, len - 1 - o, |s|)] else s[At(pos, o, |s|)]
    decreases k, 1
  {
    if k > 0 {
      if o == k - 1 {
        SwapsMirrorLow(s, pos, len, k);
      } else if o == len - k {
        SwapsMirrorHigh(s, pos, len, k);
      } else {
        SwapsMirror(s, pos, len, k - 1, o);
        SwapsLeaveRest(s, pos, len, k, o);
      }
    }
  }

  /** Swap number `k - 1` brings the mirror image to the low end of the window. */
  lemma SwapsMirrorLow(s: seq<byte>, pos: nat, len: nat, k: nat)
    requires |s| > 0 && pos < |s| && len <= |s| && 0 < k && 2 * k <= len
    ensures Swaps(s, pos, len, k)[At(pos, k - 1, |s|)] == s[At(pos, len - k, |s|)]
    decreases k, 0
  {
    var n := |s|;
    WrapAt(pos, k - 1, n);
    WrapAt(pos, len - k, n);
    SwapsMirror(s, pos, len, k - 1, len - k);
  }

  /** Swap number `k - 1` brings the mirror image to the high end of the window. */
  lemma SwapsMirrorHigh(s: seq<byte>, pos: nat, len: nat, k: nat)
    requires |s| > 0 && pos < |s| && len <= |s| && 0 < k && 2 * k <= len
    ensures Swaps(s, pos, len, k)[At(pos, len - k, |s|)] == s[At(pos, k - 1, |s|)]
    decreases k, 0
  {
    var n := |s|;
    WrapAt(pos, k - 1, n);
    WrapAt(pos, len - k, n);
    SwapsMirror(s, pos, len, k - 1, k - 1);
  }

  /** Swap number `k - 1` leaves every other offset alone. */
  lemma SwapsLeaveRest(s: seq<byte>, pos: nat, len: nat, k: nat, o: nat)
    requires |s| > 0 && pos < |s| && len <= |s| && 0 < k && 2 * k <= len && o < |s|
    requires o != k - 1 && o != len - k
    ensures Swaps(s, pos, len, k)[At(pos, o, |s|)] == Swaps(s, pos, len, k - 1)[At(pos, o, |s|)]
  {
    var n := |s|;
    WrapAt(pos, k - 1, n);
    WrapAt(pos, len - k, n);
  }

  /** For a length that fits the list, `process_length` reverses the window of that length
      at the current position. */
  lemma ProcessReverses(st: Knot, len: nat)
    requires |st.list| > 0 && st.pos < |st.list| && len <= |st.list|
    ensures Process(st, len).list == ReverseWindow(st.list, st.pos, len)
  {
    forall i | 0 <= i < |st.list|
      ensures Process(st, len).list[i] == ReverseWindow(st.list, st.pos, len)[i]
    {
      ProcessReversesAt(st.list, st.pos, len, i);
    }
  }

  /** One element of the reversed window. */
  lemma ProcessReversesAt(s: seq<byte>, pos: nat, len: nat, i: nat)
    requires pos < |s| && len <= |s| && i < |s|
    ensures Swaps(s, pos, len, len / 2)[i] == ReverseWindow(s, pos, len)[i]
  {
    var o := Offset(i, pos, |s|);
    AtOffset(i, pos, |s|);
    SwapsMirror(s, pos, len, len / 2, o);
  }

  /** `Swap` is the two updates the array swap performs. */
  lemma SwapIsUpdate(s: seq<byte>, i: nat, j: nat)
    requires i < |s| && j < |s|
    ensures Swap(s, i, j) == s[i := s[j]][j := s[i]]
  {
    var u := s[i := s[j]][j := s[i]];
    forall x | 0 <= x < |s|
      ensures Swap(s, i, j)[x] == u[x]
    {
    }
  }

  lemma UpdatesPermute(s: seq<byte>, i: nat, j: nat)
    requires i < |s| && j < |s|
    ensures multiset(s[i := s[j]][j := s[i]]) == multiset(s)
  {
    if i != j {
      var t := s[i := s[j]];
      assert multiset(t) == multiset(s) - multiset{s[i]} + multiset{s[j]};
      assert t[j] == s[j];
      assert multiset(t[j := s[i]]) == multiset(t) - multiset{s[j]} + multiset{s[i]};
    }
  }

  /** A swap keeps the elements of the list. */
  lemma SwapPermutes(s: seq<byte>, i: nat, j: nat)
    requires i < |s| && j < |s|
    ensures multiset(Swap(s, i, j)) == multiset(s)
  {
    SwapIsUpdate(s, i, j);
    UpdatesPermute(s, i, j);
  }

  /** Swap number `i` exchanges the elements at `pos + i` and `pos + len - 1 - i`. */
  lemma SwapsNext(s: seq<byte>, pos: nat, len: nat, i: nat, before: seq<byte>, a: nat, b: nat)
    requires |s| > 0 && 2 * (i + 1) <= len && before == Swaps(s, pos, len, i)
    requires a == Wrap(pos + i, |s|) && b == Wrap(pos + len - 1 - i, |s|)
    ensures Swap(before, a, b) == Swaps(s, pos, len, i + 1)
  {
  }

  /** The swaps only move elements around. */
  lemma {:induction false} SwapsPermutes(s: seq<byte>, pos: nat, len: nat, k: nat)
    requires |s| > 0 && 2 * k <= len
    ensures multiset(Swaps(s, pos, len, k)) == multiset(s)
  {
    if k > 0 {
      SwapsPermutes(s, pos, len, k - 1);
      SwapPermutes(Swaps(s, pos, len, k - 1), Wrap(pos + k - 1, |s|), Wrap(pos + len - k, |s|));
    }
  }

  /** Any number of lengths keeps the list a permutation of what it was. */
  lemma {:induction false} RunLengthsPermutes(st: Knot, lens: seq<byte>)
    requires |st.list| > 0
    ensures multiset(RunLengths(st, lens).list) == multiset(st.list)
  {
    if lens != [] {
      var before := RunLengths(st, lens[..|lens| - 1]);
      RunLengthsPermutes(st, lens[..|lens| - 1]);
      SwapsPermutes(before.list, before.pos, lens[|lens| - 1] as nat, lens[|lens| - 1] as nat / 2);
    }
  }

  /** Any number of rounds keeps the list a permutation of what it was. */
  lemma {:induction false} RunRoundsPermutes(st: Knot, lens: seq<byte>, rounds: nat)
    requires |st.list| > 0
    ensures multiset(RunRounds(st, lens, rounds).list) == multiset(st.list)
  {
    if rounds > 0 {
      RunRoundsPermutes(st, lens, rounds - 1);
      RunLengthsPermutes(RunRounds(st, lens, rounds - 1), lens);
    }
  }

  /** The position stays inside the list. */
  lemma RunLengthsPosition(st: Knot, lens: seq<byte>)
    requires |st.list| > 0 && st.pos < |st.list|
    ensures RunLengths(st, lens).pos < |st.list|
    ensures RunLengths(st, lens).skip == st.skip + |lens|
  {
  }

  // ---------------------------------------------------------------------------------------
  // The key, the dense hash and its hexadecimal form

  /** `gen_list`: the bytes 0 to 255 in order. */
  function ByteRange(): (r: seq<byte>)
    ensures |r| == 256 && forall i :: 0 <= i < 256 ==> r[i] as int == i
  {
    seq(256, i requires 0 <= i < 256 => i as byte)
  }

  /** The UTF-8 encoding of one character (what `as_bytes` yields for it). */
  function Utf8(c: char): (r: seq<byte>)
    ensures 1 <= |r| <= 4
    ensures c as int < 128 ==> r == [c as int as byte]
  {
    var n := c as int;
    if n < 0x80 then [n as byte]
    else if n < 0x800 then [(0xC0 + n / 64) as byte, (0x80 + n % 64) as byte]
    else if n < 0x10000 then [(0xE0 + n / 4096) as byte, (0x80 + n / 64 % 64) as byte, (0x80 + n % 64) as byte]
    else [(0xF0 + n / 262144) as byte, (0x80 + n / 4096 % 64) as byte, (0x80 + n / 64 % 64) as byte,
          (0x80 + n % 64) as byte]
  }

  function Utf8Bytes(s: string): (r: seq<byte>)
    ensures |s| <= |r| <= 4 * |s|
  {
    if s == [] then [] else Utf8(s[0]) + Utf8Bytes(s[1..])
  }

  /** The lengths `hash` uses: the bytes of the trimmed key, then the fixed suffix. */
  function KeyLengths(input: string): seq<byte>
  {
    Utf8Bytes(Text.Trim(input)) + Suffix
  }

  /** The XOR of a non-empty block, folded from its first byte. */
  function XorFold(block: seq<byte>): byte
    requires |block| > 0
  {
    if |block| == 1 then block[0] else Xor(XorFold(block[..|block| - 1]), block[|block| - 1])
  }

  /** The sparse hash cut into blocks of sixteen (the last one possibly shorter), each
      folded into one byte. */
  function Dense(sparse: seq<byte>): seq<byte>
    decreases |sparse|
  {
    if sparse == [] then []
    else if |sparse| <= BlockSize then [XorFold(sparse)]
    else [XorFold(sparse[..BlockSize])] + Dense(sparse[BlockSize..])
  }

  /** For a sparse hash made of whole blocks, byte `k` of the dense hash is the fold of
      block `k`. */
  lemma {:induction false} DenseBlocks(sparse: seq<byte>)
    requires |sparse| % BlockSize == 0
    ensures |Dense(sparse)| == |sparse| / BlockSize
    ensures forall k :: 0 <= k < |sparse| / BlockSize ==>
      Dense(sparse)[k] == XorFold(sparse[BlockSize * k..BlockSize * k + BlockSize])
    decreases |sparse|
  {
    if |sparse| == BlockSize {
      assert sparse[0..BlockSize] == sparse;
    } else if sparse != [] {
      var tail := sparse[BlockSize..];
      DenseBlocks(tail);
      assert Dense(sparse) == [XorFold(sparse[..BlockSize])] + Dense(tail);
      assert sparse[0..BlockSize] == sparse[..BlockSize];
      forall k | 1 <= k < |sparse| / BlockSize
        ensures Dense(sparse)[k] == XorFold(sparse[BlockSize * k..BlockSize * k + BlockSize])
      {
        assert Dense(sparse)[k] == Dense(tail)[k - 1];
        assert tail[BlockSize * (k - 1)..BlockSize * (k - 1) + BlockSize]
            == sparse[BlockSize * k..BlockSize * k + BlockSize];
      }
    }
  }

  const HexDigits: string := "0123456789abcdef"

  /** `format!("{:02x}", b)`: two lower-case hexadecimal digits, high nibble first. */
  function HexByte(b: byte): (r: string)
    ensures |r| == 2 && r[0] in HexDigits && r[1] in HexDigits
  {
    [HexDigits[b as int / 16], HexDigits[b as int % 16]]
  }

  /** The hexadecimal digits of each byte, joined without separator. */
  function HexString(bytes: seq<byte>): (r: string)
    ensures |r| == 2 * |bytes|
    ensures forall i :: 0 <= i < |r| ==> r[i] in HexDigits
  {
    if bytes == [] then [] else HexByte(bytes[0]) + HexString(bytes[1..])
  }

  /** The knot hash of a key. */
  function KnotHashOf(input: string): string
  {
    HexString(Dense(RunRounds(Knot(ByteRange(), 0, 0), KeyLengths(input), RoundCount).list))
  }

  /** Every knot hash is 32 lower-case hexadecimal digits, and the list it is folded from is a
      permutation of the bytes 0 to 255. */
  lemma KnotHashShape(input: string)
    ensures |KnotHashOf(input)| == 32
    ensures forall i :: 0 <= i < 32 ==> KnotHashOf(input)[i] in HexDigits
    ensures multiset(RunRounds(Knot(ByteRange(), 0, 0), KeyLengths(input), RoundCount).list) == multiset(ByteRange())
  {
    var st := RunRounds(Knot(ByteRange(), 0, 0), KeyLengths(input), RoundCount);
    DenseBlocks(st.list);
    RunRoundsPermutes(Knot(ByteRange(), 0, 0), KeyLengths(input), RoundCount);
  }

  // ---------------------------------------------------------------------------------------
  // The hasher object

  class KnotHasher {
    var vec: array<byte>
    var pos: nat
    var skip: nat

    ghost predicate Valid()
      reads this
    {
      vec.Length > 0 && pos < vec.Length
    }

    function State(): Knot
      reads this, vec
    {
      Knot(vec[..], pos, skip)
    }

    /** `KnotHasher::new`: the given list, at position 0 with skip 0. */
    constructor (list: seq<byte>)
      requires |list| > 0
      ensures Valid() && State() == Knot(list, 0, 0) && fresh(vec)
    {
      vec := new byte[|list|](i requires 0 <= i < |list| => list[i]);
      pos := 0;
      skip := 0;
    }

    /** `get_wrapping_index`: subtracts the length until the index is inside the list. */
    method GetWrappingIndex(idx: nat) returns (r: nat)
      requires vec.Length > 0
      ensures r == Wrap(idx, vec.Length)
    {
      r := idx;
      while r >= vec.Length
        invariant Wrap(r, vec.Length) == Wrap(idx, vec.Length)
        decreases r
      {
        r := r - vec.Length;
      }
    }

    /** `Vec::swap`: exchanges two elements of the list. */
    method Exchange(a: nat, b: nat)
      requires a < vec.Length && b < vec.Length
      modifies vec
      ensures vec[..] == Swap(old(vec[..]), a, b)
    {
      ghost var before := vec[..];
      vec[a], vec[b] := vec[b], vec[a];
      SwapIsUpdate(before, a, b);
    }

    /** `process_length`: swaps the window's ends inwards, then moves the position on. */
    method ProcessLength(len: nat)
      requires Valid()
      modifies this, vec
      ensures Valid() && vec == old(vec)
      ensures State() == Process(old(State()), len)
    {
      ghost var start := vec[..];
      for i := 0 to len / 2
        invariant vec[..] == Swaps(start, pos, len, i)
        invariant pos == old(pos) && skip == old(skip) && vec == old(vec)
      {
        var a := GetWrappingIndex(pos + i);
        var b := GetWrappingIndex(pos + len - 1 - i);
        SwapsNext(start, pos, len, i, vec[..], a, b);
        Exchange(a, b);
      }
      pos := GetWrappingIndex(pos + len + skip);
      skip := skip + 1;
    }

    /** `run`: processes the lengths in order. */
    method Run(lengths: seq<byte>)
      requires Valid()
      modifies this, vec
      ensures Valid() && vec == old(vec)
      ensures State() == RunLengths(old(State()), lengths)
    {
      for i := 0 to |lengths|
        invariant Valid() && vec == old(vec)
        invariant State() == RunLengths(old(State()), lengths[..i])
      {
        assert lengths[..i + 1][..i] == lengths[..i];
        ProcessLength(lengths[i] as nat);
      }
      assert lengths[..|lengths|] == lengths;
    }

    /** `to_slice`: the current list. */
    method ToSlice() returns (s: seq<byte>)
      ensures s == State().list
    {
      s := vec[..];
    }

    /** `KnotHasher::hash`: 64 rounds over the key's lengths, then the dense hash in hex. */
    static method Hash(input: string) returns (r: string)
      ensures r == KnotHashOf(input)
    {
      var lens := KeyLengths(input);
      var list := GenList();
      var hasher := new KnotHasher(list);
      for round := 0 to RoundCount
        invariant hasher.Valid() && fresh(hasher.vec)
        invariant hasher.State() == RunRounds(Knot(ByteRange(), 0, 0), lens, round)
      {
        hasher.Run(lens);
      }
      var sparse := hasher.ToSlice();
      r := HexString(Dense(sparse));
    }
  }

  /** `gen_list`: pushes 0 to 255 in order. */
  method GenList() returns (v: seq<byte>)
    ensures v == ByteRange()
  {
    v := [];
    for i := 0 to 256
      invariant v == ByteRange()[..i]
    {
      v := v + [i as byte];
    }
  }

  // ---------------------------------------------------------------------------------------
  // The worked example: the list 0..4 with lengths 3, 4, 1, 5

  lemma SampleFirst()
    ensures Process(Knot([0, 1, 2, 3, 4], 0, 0), 3) == Knot([2, 1, 0, 3, 4], 3, 1)
  {
  }

  lemma SampleSecond()
    ensures Process(Knot([2, 1, 0, 3, 4], 3, 1), 4) == Knot([4, 3, 0, 1, 2], 3, 2)
  {
  }

  lemma SampleThird()
    ensures Process(Knot([4, 3, 0, 1, 2], 3, 2), 1) == Knot([4, 3, 0, 1, 2], 1, 3)
  {
  }

  lemma SampleFourth()
    ensures Process(Knot([4, 3, 0, 1, 2], 1, 3), 5) == Knot([3, 4, 2, 1, 0], 4, 4)
  {
  }

  lemma RunLengthsStep(st: Knot, lens: seq<byte>, len: byte)
    requires |st.list| > 0
    ensures RunLengths(st, lens + [len]) == Process(RunLengths(st, lens), len as nat)
  {
    assert (lens + [len])[..|lens|] == lens;
  }

  /** The lengths 3, 4, 1, 5 turn the list 0..4 into 3, 4, 2, 1, 0. */
  lemma SampleRun(st: Knot, lens: seq<byte>)
    requires st == Knot([0, 1, 2, 3, 4], 0, 0) && lens == [3, 4, 1, 5]
    ensures RunLengths(st, lens).list == [3, 4, 2, 1, 0]
  {
    var l1, l2, l3: seq<byte> := [3], [3, 4], [3, 4, 1];
    SampleRunFirst(st, l1);
    SampleRunNext(st, l1, 4, Knot([2, 1, 0, 3, 4], 3, 1), Knot([4, 3, 0, 1, 2], 3, 2));
    SampleRunNext(st, l2, 1, Knot([4, 3, 0, 1, 2], 3, 2), Knot([4, 3, 0, 1, 2], 1, 3));
    SampleRunNext(st, l3, 5, Knot([4, 3, 0, 1, 2], 1, 3), Knot([3, 4, 2, 1, 0], 4, 4));
    assert l3 + [5 as byte] == lens;
  }

  lemma SampleRunFirst(st: Knot, l1: seq<byte>)
    requires st == Knot([0, 1, 2, 3, 4], 0, 0) && l1 == [3]
    ensures RunLengths(st, l1) == Knot([2, 1, 0, 3, 4], 3, 1)
  {
    RunLengthsStep(st, [], 3);
    assert [] + [3 as byte] == l1;
    SampleFirst();
  }

  lemma SampleRunNext(st: Knot, lens: seq<byte>, len: byte, before: Knot, after: Knot)
    requires |st.list| > 0 && |before.list| > 0
    requires RunLengths(st, lens) == before && Process(before, len as nat) == after
    ensures RunLengths(st, lens + [len]) == after
  {
    RunLengthsStep(st, lens, len);
  }
}
