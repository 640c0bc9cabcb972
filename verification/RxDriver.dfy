/** The receive routine on the ring's arrays and on memory, proved to be the step of the ring. */
module RxDriver {
  import opened Bytes
  import opened RxRing
  import MemCopy

  /** The receive buffer of slot `i` starts here. */
  function At(base: nat, i: nat): nat {
    base + i * BUFFER_SIZE
  }

  function BufferIn(m: seq<byte>, base: nat, i: nat): (b: seq<byte>)
    requires i < N && base + N * BUFFER_SIZE <= |m|
    ensures |b| == BUFFER_SIZE
  {
    m[At(base, i)..At(base, i) + BUFFER_SIZE]
  }

  function BuffersIn(m: seq<byte>, base: nat): (bs: seq<seq<byte>>)
    requires base + N * BUFFER_SIZE <= |m|
    ensures |bs| == N && forall i :: 0 <= i < N ==> |bs[i]| == BUFFER_SIZE && bs[i] == BufferIn(m, base, i)
  {
    seq(N, i requires 0 <= i < N => BufferIn(m, base, i))
  }

  /** The block of `n` octets at `addr` lies in memory and outside the receive buffers. */
  ghost predicate Separate(size: nat, base: nat, addr: nat, n: nat) {
    addr + n <= size && (addr + n <= base || base + N * BUFFER_SIZE <= addr)
  }

  /** A copy to the caller changes nothing else, and so none of the receive buffers. */
  lemma {:induction false} BuffersKept(m: seq<byte>, base: nat, addr: nat, src: nat, n: nat, w: MemCopy.Word)
    requires base + N * BUFFER_SIZE <= |m| && Separate(|m|, base, addr, n) && src + n <= |m|
    ensures var a := MemCopy.Copied(m, addr, src, n, w);
            && BuffersIn(a, base) == BuffersIn(m, base)
            && a[..addr] == m[..addr] && a[addr + n..] == m[addr + n..]
  {
    hide MemCopy.Copied, BuffersIn, BufferIn;
    var a := MemCopy.Copied(m, addr, src, n, w);
    forall i | 0 <= i < |m| && (i < addr || addr + n <= i) ensures a[i] == m[i] {
      MemCopy.Elsewhere(m, addr, src, n, i, w);
    }
    forall i | 0 <= i < N ensures BufferIn(a, base, i) == BufferIn(m, base, i) {
      SameBuffer(m, a, base, i);
    }
  }

  lemma {:induction false} SameBuffer(m: seq<byte>, a: seq<byte>, base: nat, i: nat)
    requires i < N && |a| == |m| && base + N * BUFFER_SIZE <= |m|
    requires forall j :: base <= j < base + N * BUFFER_SIZE ==> a[j] == m[j]
    ensures BufferIn(a, base, i) == BufferIn(m, base, i)
  {
    forall j | 0 <= j < BUFFER_SIZE ensures BufferIn(a, base, i)[j] == BufferIn(m, base, i)[j] {
      assert a[At(base, i) + j] == m[At(base, i) + j];
    }
  }

  /** A packet that fits its slot arrives at the caller's address. */
  lemma {:induction false} FetchEffect(m: seq<byte>, base: nat, addr: nat, entry: nat, n: nat, w: MemCopy.Word)
    requires entry < N && n <= BUFFER_SIZE && base + N * BUFFER_SIZE <= |m| && Separate(|m|, base, addr, n)
    ensures At(base, entry) + n <= |m|
    ensures var a := MemCopy.Copied(m, addr, At(base, entry), n, w);
            && a[addr..addr + n] == BufferIn(m, base, entry)[..n]
            && a[..addr] == m[..addr] && a[addr + n..] == m[addr + n..]
  {
    hide BufferIn, MemCopy.Copied;
    MemCopy.ForwardSafe(m, addr, At(base, entry), n, w);
    MovedBlock(m, base, addr, entry, n);
  }

  lemma {:induction false} MovedBlock(m: seq<byte>, base: nat, addr: nat, entry: nat, n: nat)
    requires entry < N && n <= BUFFER_SIZE && base + N * BUFFER_SIZE <= |m| && addr + n <= |m|
    ensures At(base, entry) + n <= |m|
    ensures var a := MemCopy.Moved(m, addr, At(base, entry), n);
            && a[addr..addr + n] == BufferIn(m, base, entry)[..n]
            && a[..addr] == m[..addr] && a[addr + n..] == m[addr + n..]
  {
  }

  function Views(ws: seq<Words>): (ds: seq<Desc>)
    ensures |ds| == |ws| && forall i :: 0 <= i < |ws| ==> ds[i] == View(ws[i])
  {
    seq(|ws|, i requires 0 <= i < |ws| => View(ws[i]))
  }

  class Adapter {
    const desc: array<Words>
    const dma: seq<bv32>        // where the hardware finds the buffer of each slot
    const mem: array<byte>      // all memory; the receive buffers start at `base`
    const base: nat
    const word: MemCopy.Word    // sizeof (UINTN)
    var cur: nat
    ghost var written: seq<Wrote>
    ghost var asked: seq<nat>
    ghost var taken: seq<Outcome>

    ghost predicate Valid()
      reads this
    {
      desc.Length == N == |dma| && base + N * BUFFER_SIZE <= mem.Length && cur < N && desc as object != mem
    }

    ghost function Value(): (s: State)
      reads this, desc, mem
      requires Valid()
      ensures Shaped(s)
    {
      State(Views(desc[..]), BuffersIn(mem[..], base), cur, written, asked, taken)
    }

    /** First-time initialisation over cleared receive buffers: every descriptor is armed. */
    constructor (m: array<byte>, b: nat, w: MemCopy.Word, addresses: seq<bv32>)
      requires |addresses| == N
      requires b + N * BUFFER_SIZE <= m.Length
      requires forall i :: b <= i < b + N * BUFFER_SIZE ==> m[i] == 0
      ensures Valid() && mem == m && base == b && word == w && dma == addresses && fresh(desc) && Value() == Start()
      ensures forall i :: 0 <= i < N ==> desc[i] == Words(dma[i], 0, 0, 0xC100_0000)
    {
      desc := new Words[N](i requires 0 <= i < N => ArmedWords(addresses[i]));
      mem, base, word, dma := m, b, w, addresses;
      cur := 0;
      written, asked, taken := [], [], [];
      new;
      forall i | 0 <= i < N ensures View(desc[i]) == ARMED {
        ArmedView(addresses[i]);
      }
      assert Views(desc[..]) == seq(N, _ => ARMED);
      ghost var bs := BuffersIn(mem[..], base);
      forall i | 0 <= i < N ensures bs[i] == Zeros(BUFFER_SIZE) {
        assert BufferIn(mem[..], base, i) == Zeros(BUFFER_SIZE);
      }
      assert bs == seq(N, _ => Zeros(BUFFER_SIZE));
    }

    /** The next packet is copied out. */
    predicate Good()
      reads this, desc
      requires Valid()
    {
      var d := View(desc[cur]);
      !d.own && d.last && !d.failed
    }

    /** Copies the leading octets of a slot out. */
    method CopyOut(addr: nat, entry: nat, n: nat, byOctets: bool)
      requires Valid() && entry < N && At(base, entry) + n <= mem.Length && addr + n <= mem.Length
      modifies mem
      ensures mem[..] == MemCopy.Copied(old(mem[..]), addr, At(base, entry), n, if byOctets then 1 else word)
      ensures Separate(mem.Length, base, addr, n) ==>
                && BuffersIn(mem[..], base) == old(BuffersIn(mem[..], base))
                && mem[..addr] == old(mem[..addr]) && mem[addr + n..] == old(mem[addr + n..])
      ensures Separate(mem.Length, base, addr, n) && n <= BUFFER_SIZE ==>
                mem[addr..addr + n] == old(BuffersIn(mem[..], base))[entry][..n]
    {
      hide BuffersIn, BufferIn, MemCopy.Copied;
      ghost var unit: MemCopy.Word := if byOctets then 1 else word;
      if Separate(mem.Length, base, addr, n) {
        BuffersKept(mem[..], base, addr, At(base, entry), n, unit);
        if n <= BUFFER_SIZE {
          FetchEffect(mem[..], base, addr, entry, n, unit);
        }
      }
      MemCopy.Copy(mem, addr, At(base, entry), n, word, byOctets);
    }

    /**
     IntelgbeReceive into the caller's `bufferLen` octets at `bufferAddr`, both
     ends of the copy in memory. The ring takes its step; the receive buffers
     keep what they hold if the destination is outside of them.
     */
    method ReceiveFrame(bufferAddr: nat, bufferLen: nat, byOctets: bool) returns (success: bool, frameLen: nat)
      requires Valid()
      requires Good() ==>
                 var n := CopyLen(View(desc[cur]).len, bufferLen);
                 At(base, cur) + n <= mem.Length && bufferAddr + n <= mem.Length
      modifies this, desc, mem
      ensures Valid() && (Value().(slots := old(Value()).slots), success) == Receive(old(Value()), bufferLen)
      ensures desc[..] == if success then old(desc[..])[old(cur) := Words(dma[old(cur)], 0, 0, 0xC100_0000)] else old(desc[..])
      ensures old(Good()) ==>
                && frameLen == CopyLen(old(View(desc[cur]).len), bufferLen)
                && mem[..] == MemCopy.Copied(old(mem[..]), bufferAddr, At(base, old(cur)), frameLen, if byOctets then 1 else word)
      ensures !old(Good()) ==> mem[..] == old(mem[..])
      ensures old(Good()) && Separate(mem.Length, base, bufferAddr, frameLen) ==> Value().slots == old(Value()).slots
      ensures old(Good()) && Separate(mem.Length, base, bufferAddr, frameLen) && taken[|taken| - 1].Delivered? ==>
                && frameLen == |taken[|taken| - 1].octets|
                && mem[bufferAddr..bufferAddr + frameLen] == taken[|taken| - 1].octets
                && mem[..bufferAddr] == old(mem[..bufferAddr])
                && mem[bufferAddr + frameLen..] == old(mem[bufferAddr + frameLen..])
    {
      hide CopyLen, BuffersIn, BufferIn, MemCopy.Copied, Separate, View;
      frameLen := 0;
      var entry := cur;
      var d := View(desc[entry]);
      if d.own {
        return false, frameLen;
      }
      ghost var w := Held(Value(), entry);
      var ok := d.last && !d.failed;
      cur := cur + 1;
      if cur >= N {
        cur := 0;
      }
      if ok {
        frameLen := CopyLen(d.len, bufferLen);
        CopyOut(bufferAddr, entry, frameLen, byOctets);
      }
      ghost var before := desc[..];
      desc[entry] := ArmedWords(dma[entry]);
      ArmedView(dma[entry]);
      assert desc[..] == before[entry := ArmedWords(dma[entry])];
      assert Views(desc[..]) == Views(before)[entry := ARMED];
      asked := asked + [bufferLen];
      taken := taken + [OutcomeOf(w, bufferLen)];
      success := true;
    }
  }
}
