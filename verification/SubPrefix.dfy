/** Sub-prefix allocation: writing an index into the bits of a seed prefix and reading it back. */
module SubPrefixes {

  /** An address in network byte order; 4 or 16 bytes in the source. */
  type Address = seq<bv8>

  datatype Result<T> = Ok(value: T) | Err(error: string)

  const WORD: int := 0x1_0000_0000

  /** 0x1 << i, for a bit inside a byte. */
  function Mask(i: nat): bv8
    requires i < 8
  {
    match i
    case 0 => 1
    case 1 => 2
    case 2 => 4
    case 3 => 8
    case 4 => 16
    case 5 => 32
    case 6 => 64
    case 7 => 128
  }

  predicate Bit(b: bv8, i: nat)
    requires i < 8
  {
    b & Mask(i) != 0
  }

  /** Setting and clearing a bit leaves the others alone. */
  lemma SetBit(b: bv8, i: nat, j: nat)
    requires i < 8 && j < 8
    ensures Bit(b | Mask(i), j) <==> i == j || Bit(b, j)
  {
  }

  lemma ClearBit(b: bv8, i: nat, j: nat)
    requires i < 8 && j < 8
    ensures Bit(b & !Mask(i), j) <==> i != j && Bit(b, j)
  {
  }

  /** getNthMSBit: bit 0 is the first of the first byte. */
  predicate MSBit(a: Address, k: nat)
    requires k < 8 * |a|
  {
    Bit(a[k / 8], 7 - k % 8)
  }

  function Pow2(n: nat): (p: nat)
    ensures p > 0
  {
    if n == 0 then 1 else 2 * Pow2(n - 1)
  }

  /** x >> i */
  function Shift(x: nat, i: nat): nat
    decreases i
  {
    if i == 0 then x else Shift(x / 2, i - 1)
  }

  /** Bit i of an index. */
  predicate IndexBit(index: nat, i: nat) {
    Shift(index, i) % 2 == 1
  }

  /** Bits taken beyond the seed: at most 32. */
  function AllocBits(seedLen: nat, allocLen: nat): int {
    if allocLen - seedLen <= 32 then allocLen - seedLen else 32
  }

  /** Bit k of the network with number `index`. */
  ghost predicate NetworkBit(seed: Address, seedLen: nat, allocLen: nat, index: nat, k: nat)
    requires k < 8 * |seed| && seedLen <= allocLen <= 8 * |seed|
  {
    if k >= allocLen then false
    else if k >= allocLen - AllocBits(seedLen, allocLen) then IndexBit(index, allocLen - 1 - k)
    else MSBit(seed, k)
  }

  function Written(b: bv8, i: nat, one: bool): bv8
    requires i < 8
  {
    if one then b | Mask(i) else b & !Mask(i)
  }

  lemma WrittenBit(b: bv8, i: nat, one: bool, j: nat)
    requires i < 8 && j < 8
    ensures Bit(Written(b, i, one), j) == if i == j then one else Bit(b, j)
  {
    SetBit(b, i, j);
    ClearBit(b, i, j);
  }

  lemma ByteWritten(a: Address, idx: nat, one: bool, k: nat)
    requires idx < 8 * |a| && k < 8 * |a|
    ensures var at := |a| - idx / 8 - 1;
            MSBit(a[at := Written(a[at], idx % 8, one)], k) == if k == 8 * |a| - 1 - idx then one else MSBit(a, k)
  {
    hide Bit, Written;
    var at := |a| - idx / 8 - 1;
    Mirrored(|a|, idx, k);
    WrittenBit(a[at], idx % 8, one, 7 - k % 8);
  }

  /** One turn of the loop of getNthPrefix: bit `idx`, counted from the last, set or cleared. */
  method WriteBit(ip: array<bv8>, idx: nat, one: bool)
    requires idx < 8 * ip.Length
    modifies ip
    ensures forall k: nat | k < 8 * ip.Length :: MSBit(ip[..], k) == if k == 8 * ip.Length - 1 - idx then one else MSBit(old(ip[..]), k)
  {
    hide MSBit, Written;
    var at := ip.Length - idx / 8 - 1;
    ghost var before := ip[..];
    ip[at] := Written(ip[at], idx % 8, one);
    assert ip[..] == before[at := Written(before[at], idx % 8, one)];
    forall k: nat | k < 8 * ip.Length ensures MSBit(ip[..], k) == if k == 8 * ip.Length - 1 - idx then one else MSBit(before, k) {
      ByteWritten(before, idx, one, k);
    }
  }

  /** Bits counted from the last are the bits counted from the first, mirrored. */
  lemma Mirrored(n: nat, idx: nat, k: nat)
    requires idx < 8 * n && k < 8 * n
    ensures k == 8 * n - 1 - idx <==> k / 8 == n - idx / 8 - 1 && 7 - k % 8 == idx % 8
  {
  }

  /** IPAddress::mask: everything from bit `len` on is cleared. */
  method MaskAddress(ip: array<bv8>, len: nat)
    requires len <= 8 * ip.Length
    modifies ip
    ensures forall k: nat | k < 8 * ip.Length :: MSBit(ip[..], k) == (k < len && MSBit(old(ip[..]), k))
  {
    ghost var before := ip[..];
    var bits := 8 * ip.Length;
    for i := 0 to bits - len
      invariant forall k: nat | k < bits :: MSBit(ip[..], k) == (k < bits - i && MSBit(before, k))
    {
      WriteBit(ip, i, false);
    }
  }

  /** `a` is network `index` of the seed. */
  ghost predicate IsNetwork(seed: Address, seedLen: nat, allocLen: nat, index: nat, a: Address) {
    && seedLen <= allocLen <= 8 * |seed| && |a| == |seed|
    && forall k: nat | k < 8 * |seed| :: MSBit(a, k) == NetworkBit(seed, seedLen, allocLen, index, k)
  }

  const BIGGER := "Alloc prefix is bigger than seed prefix."
  const RANGE := "Prefix index is out of range."
  const NO_SUCH_BYTE := "No such byte."
  const NO_SUCH_MASK := "No such mask."

  lemma RemainderIs(x: int, q: int, r: int)
    requires x == q * WORD + r && 0 <= r < WORD
    ensures x % WORD == r
  {
  }

  /** A 32-bit difference read as a signed number. */
  function Signed(x: int): int {
    if x % WORD >= WORD / 2 then x % WORD - WORD else x % WORD
  }

  /** Bits taken beyond the seed, as the source computes them. */
  function SignedBits(seedLen: nat, allocLen: nat): int {
    if Signed(allocLen - seedLen) <= 32 then Signed(allocLen - seedLen) else 32
  }

  /** The byte that holds bit `idx`, counted from the last, in unsigned 32-bit arithmetic. */
  function ByteOf(bytes: nat, idx: nat): nat {
    (bytes - idx / 8 - 1) % WORD
  }

  lemma BitsAreSmall(seedLen: nat, allocLen: nat)
    requires seedLen < 256 && allocLen < WORD
    ensures SignedBits(seedLen, allocLen) <= 32
    ensures allocLen - seedLen < WORD / 2 ==> SignedBits(seedLen, allocLen) == AllocBits(seedLen, allocLen)
    ensures allocLen < seedLen || allocLen - seedLen >= WORD / 2 ==> SignedBits(seedLen, allocLen) < 0
  {
  }

  /** Bit `i` of the index, counted from the last bit of the address. */
  function IndexOf(bytes: nat, allocLen: nat, i: nat): nat {
    (i + (8 * bytes - allocLen) % WORD) % WORD
  }

  /** For a length that the address has, it is there. */
  lemma BitIsPresent(bytes: nat, allocLen: nat, i: nat)
    requires bytes <= 16 && i < allocLen <= 8 * bytes
    ensures IndexOf(bytes, allocLen, i) == i + 8 * bytes - allocLen
    ensures ByteOf(bytes, IndexOf(bytes, allocLen, i)) < bytes
  {
    RemainderIs(8 * bytes - allocLen, 0, 8 * bytes - allocLen);
    RemainderIs(i + 8 * bytes - allocLen, 0, i + 8 * bytes - allocLen);
    var at := bytes - (i + 8 * bytes - allocLen) / 8 - 1;
    assert 0 <= at < bytes;
    RemainderIs(at, 0, at);
  }

  /** For a longer one the very first bit is not. */
  lemma FirstBitIsMissing(bytes: nat, allocLen: nat)
    requires bytes <= 16 && 8 * bytes < allocLen < WORD
    ensures ByteOf(bytes, IndexOf(bytes, allocLen, 0)) >= bytes
  {
    var idx := WORD + 8 * bytes - allocLen;
    RemainderIs(8 * bytes - allocLen, -1, idx);
    RemainderIs(idx, 0, idx);
    var at := bytes - idx / 8 - 1;
    assert idx / 8 >= bytes;
    RemainderIs(at, -1, at + WORD);
  }

  /** The loop of getNthPrefix; it throws if it comes to a bit that the address does not have. */
  method WriteIndex(ip: array<bv8>, allocLen: nat, allocBits: nat, index: nat) returns (ok: bool)
    requires ip.Length <= 16 && allocLen < WORD && allocBits <= allocLen
    modifies ip
    ensures ok <==> allocLen <= 8 * ip.Length || allocBits == 0
    ensures ok ==> forall k: nat | k < 8 * ip.Length ::
              MSBit(ip[..], k) == if allocLen - allocBits <= k < allocLen then IndexBit(index, allocLen - 1 - k) else MSBit(old(ip[..]), k)
  {
    hide ByteOf, IndexOf, MSBit, IndexBit;
    ghost var seed := ip[..];
    for i := 0 to allocBits
      invariant 8 * ip.Length < allocLen ==> i == 0
      invariant forall k: nat | k < 8 * ip.Length ::
                  MSBit(ip[..], k) == if allocLen - i <= k < allocLen then IndexBit(index, allocLen - 1 - k) else MSBit(seed, k)
    {
      var idx := IndexOf(ip.Length, allocLen, i);
      if 8 * ip.Length < allocLen {
        FirstBitIsMissing(ip.Length, allocLen);
      } else {
        BitIsPresent(ip.Length, allocLen, i);
      }
      if ByteOf(ip.Length, idx) >= ip.Length {
        return false;
      }
      WriteBit(ip, idx, IndexBit(index, i));
    }
    ok := true;
  }

  /** getNthPrefix, for all lengths and indices of the source's types. */
  method GetNthPrefix(seed: Address, seedLen: nat, allocLen: nat, index: nat) returns (r: Result<Address>)
    requires |seed| <= 16 && seedLen < 256 && allocLen < WORD && index < WORD
    ensures r.Err? <==> allocLen < seedLen || allocLen > 8 * |seed| || (AllocBits(seedLen, allocLen) < 32 && index >= Pow2(AllocBits(seedLen, allocLen)))
    ensures allocLen < seedLen ==> r == Err(BIGGER)
    ensures r.Err? && seedLen <= allocLen <= 8 * |seed| ==> r == Err(RANGE)
    ensures r.Ok? ==> IsNetwork(seed, seedLen, allocLen, index, r.value)
  {
    hide SignedBits, Signed, Pow2, MSBit, IndexBit;
    BitsAreSmall(seedLen, allocLen);
    var allocBits := SignedBits(seedLen, allocLen);
    if allocBits < 0 {
      return Err(BIGGER);
    }
    if allocBits < 32 && index >= Pow2(allocBits) {
      return Err(RANGE);
    }
    var ip := new bv8[|seed|](i requires 0 <= i < |seed| => seed[i]);
    assert ip[..] == seed;
    var ok := WriteIndex(ip, allocLen, allocBits, index);
    if !ok {
      return Err(NO_SUCH_BYTE);
    }
    if allocLen > 8 * |seed| {
      return Err(NO_SUCH_MASK);
    }
    MaskAddress(ip, allocLen);
    r := Ok(ip[..]);
  }

  /** The number that bits start .. end - 1 spell. */
  ghost function Spelled(a: Address, start: nat, end: nat): nat
    requires start <= end <= 8 * |a|
    decreases end - start
  {
    if start == end then 0 else 2 * Spelled(a, start, end - 1) + if MSBit(a, end - 1) then 1 else 0
  }

  /** Shifting left and or-ing a bit, in 32 bits. */
  lemma ShiftedIn(s: nat, bit: nat)
    requires bit <= 1
    ensures s % WORD * 2 % WORD + bit == (2 * s + bit) % WORD
  {
    var q, r := s / WORD, s % WORD;
    assert s == q * WORD + r;
    if 2 * r < WORD {
      RemainderIs(2 * r, 0, 2 * r);
      RemainderIs(2 * s + bit, 2 * q, 2 * r + bit);
    } else {
      RemainderIs(2 * r, 1, 2 * r - WORD);
      RemainderIs(2 * s + bit, 2 * q + 1, 2 * r - WORD + bit);
    }
  }

  /** bitStrValue, whose `end` is the last bit; 32-bit arithmetic wraps. */
  method BitStrValue(a: Address, start: nat, end: nat) returns (value: nat)
    requires start <= end < 8 * |a|
    ensures value == Spelled(a, start, end + 1) % WORD
  {
    hide MSBit;
    value := 0;
    for i := start to end + 1
      invariant value == Spelled(a, start, i) % WORD
    {
      ShiftedIn(Spelled(a, start, i), if MSBit(a, i) then 1 else 0);
      value := value * 2 % WORD;
      if MSBit(a, i) {
        value := value + 1;
      }
    }
  }

  lemma {:induction false} ShiftOneMore(x: nat, i: nat)
    ensures Shift(x, i + 1) == Shift(x, i) / 2
    decreases i
  {
    if i > 0 {
      ShiftOneMore(x / 2, i - 1);
    }
  }

  lemma {:induction false} ShiftedOut(x: nat, n: nat)
    requires x < Pow2(n)
    ensures Shift(x, n) == 0
    decreases n
  {
    if n > 0 {
      ShiftedOut(x / 2, n - 1);
    }
  }

  /** Bits of the index, the highest first, spell the index. */
  lemma {:induction false} IndexIsSpelled(a: Address, start: nat, end: nat, last: nat, index: nat)
    requires start <= end <= last <= 8 * |a|
    requires forall k: nat | start <= k < end :: MSBit(a, k) == IndexBit(index, last - 1 - k)
    requires index < Pow2(last - start)
    ensures Spelled(a, start, end) == Shift(index, last - end)
    decreases end - start
  {
    hide MSBit, Shift, Pow2;
    if start == end {
      ShiftedOut(index, last - start);
    } else {
      IndexIsSpelled(a, start, end - 1, last, index);
      ShiftOneMore(index, last - end);
      assert MSBit(a, end - 1) == IndexBit(index, last - end);
    }
  }

  lemma {:induction false} Pow2Grows(m: nat, n: nat)
    requires m <= n
    ensures Pow2(m) <= Pow2(n)
    decreases n
  {
    if m < n {
      Pow2Grows(m, n - 1);
    }
  }

  lemma Pow2Word()
    ensures Pow2(32) == WORD
  {
    assert Pow2(8) == 256;
    assert Pow2(16) == 0x1_0000;
    assert Pow2(24) == 0x100_0000;
  }

  ghost predicate InRange(seedLen: nat, allocLen: nat, index: nat) {
    seedLen <= allocLen && index < Pow2(AllocBits(seedLen, allocLen))
  }

  /** Reading the bits beyond the seed gives the index back, for up to 32 of them; beyond that, the
      last 32. */
  lemma IndexRoundTrip(seed: Address, seedLen: nat, allocLen: nat, index: nat, a: Address)
    requires IsNetwork(seed, seedLen, allocLen, index, a) && InRange(seedLen, allocLen, index)
    ensures Spelled(a, allocLen - AllocBits(seedLen, allocLen), allocLen) == index
    ensures index < WORD
  {
    var n := AllocBits(seedLen, allocLen);
    IndexIsSpelled(a, allocLen - n, allocLen, allocLen, index);
    Pow2Grows(n, 32);
    Pow2Word();
  }

  /** So distinct indices make distinct networks. */
  lemma DistinctNetworks(seed: Address, seedLen: nat, allocLen: nat, i: nat, j: nat, a: Address, b: Address)
    requires IsNetwork(seed, seedLen, allocLen, i, a) && IsNetwork(seed, seedLen, allocLen, j, b)
    requires InRange(seedLen, allocLen, i) && InRange(seedLen, allocLen, j) && i != j
    ensures a != b
  {
    IndexRoundTrip(seed, seedLen, allocLen, i, a);
    IndexRoundTrip(seed, seedLen, allocLen, j, b);
  }

  /** Every network is inside the seed network, and clear beyond its own length. */
  lemma InsideSeed(seed: Address, seedLen: nat, allocLen: nat, index: nat, a: Address, k: nat)
    requires IsNetwork(seed, seedLen, allocLen, index, a) && k < 8 * |seed|
    ensures k < seedLen ==> MSBit(a, k) == MSBit(seed, k)
    ensures k >= allocLen ==> !MSBit(a, k)
  {
  }

  /** The two functions of the source together. */
  method AllocateAndRead(seed: Address, seedLen: nat, allocLen: nat, index: nat) returns (r: Result<nat>)
    requires seedLen < allocLen <= 8 * |seed| <= 128 && allocLen - seedLen <= 32 && index < WORD
    ensures r == if index < Pow2(allocLen - seedLen) then Ok(index) else Err(RANGE)
  {
    Pow2Word();
    hide Pow2, MSBit, NetworkBit, Spelled;
    var a := GetNthPrefix(seed, seedLen, allocLen, index);
    if a.Err? {
      return Err(a.error);
    }
    IndexRoundTrip(seed, seedLen, allocLen, index, a.value);
    var value := BitStrValue(a.value, seedLen, allocLen - 1);
    return Ok(value);
  }
}
