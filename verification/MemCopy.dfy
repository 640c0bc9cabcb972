/** The driver's own copy routine: whole words first, then the leftover octets, in ascending order. */
module MemCopy {
  import opened Bytes

  /** sizeof (UINTN): 4 or 8, by platform. */
  type Word = w: nat | w > 0 witness 4

  /** The reference: `n` octets moved as one block. */
  function Moved(m: seq<byte>, dst: nat, src: nat, n: nat): (r: seq<byte>)
    requires dst + n <= |m| && src + n <= |m|
    ensures |r| == |m|
  {
    m[..dst] + m[src..src + n] + m[dst + n..]
  }

  /** The two loops: moves of one word, then of one octet. */
  function Copied(m: seq<byte>, dst: nat, src: nat, n: nat, w: Word): (r: seq<byte>)
    requires dst + n <= |m| && src + n <= |m|
    ensures |r| == |m|
    decreases n
  {
    if n == 0 then m
    else
      var k := if n >= w then w else 1;
      Copied(Moved(m, dst, src, k), dst + k, src + k, n - k, w)
  }

  /**
   IntelgbeMemCopy, on memory that holds both buffers. `byOctets` says that the
   addresses rule out word accesses, as misaligned ones do on Itanium.
   */
  method Copy(m: array<byte>, dst: nat, src: nat, count: nat, w: Word, byOctets: bool)
    requires dst + count <= m.Length && src + count <= m.Length
    modifies m
    ensures m[..] == Copied(old(m[..]), dst, src, count, if byOctets then 1 else w)
  {
    hide Copied;
    var ints := count / w;
    var bytes := count % w;
    if byOctets {
      ints, bytes := 0, count;
    }
    var d, s := dst, src;
    ghost var unit: Word := if byOctets then 1 else w;
    ghost var goal := Copied(m[..], dst, src, count, unit);
    ghost var left := count;
    assert byOctets || left == Octets(ints, w) + bytes by {
      WholeWords(count, w);
    }
    while ints > 0
      invariant 0 <= left <= count && d + left == dst + count && s + left == src + count
      invariant byOctets ==> ints == 0 && left == bytes
      invariant !byOctets ==> ints >= 0 && left == Octets(ints, w) + bytes && bytes < w
      invariant Copied(m[..], d, s, left, unit) == goal
    {
      OneLess(ints, w);
      CopiedStep(m[..], d, s, left, unit);
      MoveIn(m, d, s, w);
      s := s + w;
      d := d + w;
      left := left - w;
      ints := ints - 1;
    }
    NoWords(w);
    CopyOctets(m, d, s, bytes, unit);
  }

  /** The leftover octets. */
  method CopyOctets(m: array<byte>, dst: nat, src: nat, count: nat, ghost w: Word)
    requires dst + count <= m.Length && src + count <= m.Length && (w == 1 || count < w)
    modifies m
    ensures m[..] == Copied(old(m[..]), dst, src, count, w)
  {
    hide Copied;
    var d, s, bytes := dst, src, count;
    ghost var goal := Copied(m[..], dst, src, count, w);
    while bytes > 0
      invariant 0 <= bytes <= count && d + bytes == dst + count && s + bytes == src + count
      invariant Copied(m[..], d, s, bytes, w) == goal
    {
      CopiedStep(m[..], d, s, bytes, w);
      MoveIn(m, d, s, 1);
      s := s + 1;
      d := d + 1;
      bytes := bytes - 1;
    }
    CopiedStep(m[..], d, s, 0, w);
  }

  /** The octets in `ints` words. */
  function Octets(ints: nat, w: Word): nat {
    ints * w
  }

  lemma {:induction false} WholeWords(count: nat, w: Word)
    ensures Octets(count / w, w) + count % w == count
  {
  }

  lemma {:induction false} OneLess(ints: nat, w: Word)
    requires ints > 0
    ensures Octets(ints, w) == w + Octets(ints - 1, w)
  {
    assert ints * w == w + (ints - 1) * w;
  }

  lemma {:induction false} NoWords(w: Word)
    ensures Octets(0, w) == 0
  {
  }

  /** One load and one store of `n` octets. */
  method MoveIn(m: array<byte>, dst: nat, src: nat, n: nat)
    requires dst + n <= m.Length && src + n <= m.Length
    modifies m
    ensures m[..] == Moved(old(m[..]), dst, src, n)
  {
    forall k | 0 <= k < n {
      m[dst + k] := m[src + k];
    }
  }

  lemma {:induction false} CopiedStep(m: seq<byte>, dst: nat, src: nat, n: nat, w: Word)
    requires dst + n <= |m| && src + n <= |m|
    ensures n == 0 ==> Copied(m, dst, src, n, w) == m
    ensures 0 < n < w ==> Copied(m, dst, src, n, w) == Copied(Moved(m, dst, src, 1), dst + 1, src + 1, n - 1, w)
    ensures n >= w ==> Copied(m, dst, src, n, w) == Copied(Moved(m, dst, src, w), dst + w, src + w, n - w, w)
  {
  }

  // ---------- When it is a block move ----------

  lemma {:induction false} MoveTwice(m: seq<byte>, dst: nat, src: nat, k: nat, n: nat)
    requires k <= n && dst + n <= |m| && src + n <= |m|
    requires dst <= src || src + n <= dst
    ensures Moved(Moved(m, dst, src, k), dst + k, src + k, n - k) == Moved(m, dst, src, n)
  {
    hide Moved;
    var a := Moved(m, dst, src, k);
    forall i | 0 <= i < |m|
      ensures Moved(a, dst + k, src + k, n - k)[i] == Moved(m, dst, src, n)[i]
    {
      MovedAt(m, dst, src, n, i);
      MovedAt(a, dst + k, src + k, n - k, i);
      MovedAt(m, dst, src, k, if dst + k <= i < dst + n then src + (i - dst) else i);
    }
  }

  lemma {:induction false} NothingMoves(m: seq<byte>, dst: nat, src: nat, w: Word)
    requires dst <= |m| && src <= |m|
    ensures Copied(m, dst, src, 0, w) == Moved(m, dst, src, 0)
  {
    assert Moved(m, dst, src, 0) == m;
  }

  lemma {:induction false} ForwardSafe(m: seq<byte>, dst: nat, src: nat, n: nat, w: Word)
    requires dst + n <= |m| && src + n <= |m|
    requires dst <= src || src + n <= dst
    ensures Copied(m, dst, src, n, w) == Moved(m, dst, src, n)
    decreases n
  {
    hide Moved, Copied;
    if n == 0 {
      NothingMoves(m, dst, src, w);
    } else {
      var k := Unit(n, w);
      CopiedUnit(m, dst, src, n, w);
      ForwardSafe(Moved(m, dst, src, k), dst + k, src + k, n - k, w);
      MoveTwice(m, dst, src, k, n);
    }
  }

  // ---------- When it is not ----------

  lemma {:induction false} MovedAt(m: seq<byte>, dst: nat, src: nat, n: nat, i: nat)
    requires dst + n <= |m| && src + n <= |m| && i < |m|
    ensures Moved(m, dst, src, n)[i] == if dst <= i < dst + n then m[src + (i - dst)] else m[i]
  {
  }

  function Unit(n: nat, w: Word): nat {
    if n >= w then w else 1
  }

  lemma {:induction false} CopiedUnit(m: seq<byte>, dst: nat, src: nat, n: nat, w: Word)
    requires 0 < n && dst + n <= |m| && src + n <= |m|
    ensures Unit(n, w) <= n
    ensures var k := Unit(n, w); Copied(m, dst, src, n, w) == Copied(Moved(m, dst, src, k), dst + k, src + k, n - k, w)
  {
  }

  /** Nothing outside the destination changes. */
  lemma {:induction false} Elsewhere(m: seq<byte>, dst: nat, src: nat, n: nat, i: nat, w: Word)
    requires dst + n <= |m| && src + n <= |m| && i < |m| && (i < dst || dst + n <= i)
    ensures Copied(m, dst, src, n, w)[i] == m[i]
    decreases n
  {
    hide Copied, Moved;
    var k := Unit(n, w);
    if n == 0 {
      CopiedStep(m, dst, src, n, w);
    } else {
      CopiedUnit(m, dst, src, n, w);
      MovedAt(m, dst, src, k, i);
      Elsewhere(Moved(m, dst, src, k), dst + k, src + k, n - k, i, w);
    }
  }

  /** An octet whose source lies below every destination reaches its destination unchanged. */
  lemma {:induction false} Undisturbed(m: seq<byte>, dst: nat, src: nat, n: nat, j: nat, w: Word)
    requires dst + n <= |m| && src + n <= |m| && j < n && src + j < dst
    ensures Copied(m, dst, src, n, w)[dst + j] == m[src + j]
    decreases n
  {
    hide Copied, Moved;
    var k := Unit(n, w);
    CopiedUnit(m, dst, src, n, w);
    var a := Moved(m, dst, src, k);
    if j < k {
      MovedAt(m, dst, src, k, dst + j);
      Elsewhere(a, dst + k, src + k, n - k, dst + j, w);
    } else {
      MovedAt(m, dst, src, k, src + j);
      Undisturbed(a, dst + k, src + k, n - k, j - k, w);
    }
  }

  /** The first octet always arrives. */
  lemma {:induction false} FirstArrives(m: seq<byte>, dst: nat, src: nat, n: nat, w: Word)
    requires 0 < n && dst + n <= |m| && src + n <= |m|
    ensures Copied(m, dst, src, n, w)[dst] == m[src]
  {
    hide Copied, Moved;
    var k := Unit(n, w);
    CopiedUnit(m, dst, src, n, w);
    MovedAt(m, dst, src, k, dst);
    Elsewhere(Moved(m, dst, src, k), dst + k, src + k, n - k, dst, w);
  }

  /** The octet that an upward overlap loses. */
  function LostAt(d: nat, n: nat, w: Word): nat {
    if d < Unit(n, w) then Unit(n, w) else d
  }

  /** It arrives with the value of another octet, overwritten before it was read. */
  lemma {:induction false} LostValue(m: seq<byte>, dst: nat, src: nat, n: nat, w: Word)
    requires src < dst < src + n && dst + n <= |m| && n != w
    ensures var j := LostAt(dst - src, n, w);
            j < n && Copied(m, dst, src, n, w)[dst + j] == m[src + j - (dst - src)]
  {
    hide Copied, Moved;
    var d, k := dst - src, Unit(n, w);
    CopiedUnit(m, dst, src, n, w);
    var a := Moved(m, dst, src, k);
    var j := LostAt(d, n, w);
    MovedAt(m, dst, src, k, src + j);
    if d < k {
      FirstArrives(a, dst + k, src + k, n - k, w);
    } else {
      Undisturbed(a, dst + k, src + k, n - k, d - k, w);
    }
  }

  function Marked(size: nat, at: nat): (m: seq<byte>)
    ensures |m| == size && forall i :: 0 <= i < size ==> m[i] == if i == at then 1 else 0
  {
    seq(size, i => if i == at then 1 else 0)
  }

  lemma {:induction false} UpwardOverlapFails(size: nat, dst: nat, src: nat, n: nat, w: Word) returns (m: seq<byte>)
    requires src < dst < src + n && dst + n <= size && n != w
    ensures |m| == size && Copied(m, dst, src, n, w) != Moved(m, dst, src, n)
  {
    hide Copied, Moved;
    var j := LostAt(dst - src, n, w);
    m := Marked(size, src + j);
    LostValue(m, dst, src, n, w);
    MovedAt(m, dst, src, n, dst + j);
  }

  lemma {:induction false} OneWord(m: seq<byte>, dst: nat, src: nat, w: Word)
    requires dst + w <= |m| && src + w <= |m|
    ensures Copied(m, dst, src, w, w) == Moved(m, dst, src, w)
  {
  }

  ghost predicate CopiesBlock(size: nat, dst: nat, src: nat, n: nat, w: Word)
    requires dst + n <= size && src + n <= size
  {
    forall m: seq<byte> :: |m| == size ==> Copied(m, dst, src, n, w) == Moved(m, dst, src, n)
  }

  /**
   The routine copies the block for all memory contents exactly when the
   destination does not start inside the source, or the block is a single word.
   */
  lemma {:induction false} CopyExact(size: nat, dst: nat, src: nat, n: nat, w: Word)
    requires dst + n <= size && src + n <= size
    ensures CopiesBlock(size, dst, src, n, w) <==> dst <= src || src + n <= dst || n == w
  {
    hide Copied, Moved;
    if dst <= src || src + n <= dst {
      forall m: seq<byte> | |m| == size ensures Copied(m, dst, src, n, w) == Moved(m, dst, src, n) {
        ForwardSafe(m, dst, src, n, w);
      }
    } else if n == w {
      forall m: seq<byte> | |m| == size ensures Copied(m, dst, src, n, w) == Moved(m, dst, src, n) {
        OneWord(m, dst, src, w);
      }
    } else {
      var m := UpwardOverlapFails(size, dst, src, n, w);
    }
  }
}
