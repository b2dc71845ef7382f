/** The LSB-first bit reader of the DEFLATE decoder (bits_t in src/image.c). */
module BitReader {
  import opened Bits

  /** `x << k` on a 32-bit unsigned value. */
  function Shl32(x: nat, k: nat): nat {
    x * Pow2(k) % TWO32
  }

  class Reader {
    const src: seq<byte>
    var pos: nat
    var buf: nat
    var cnt: nat
    ghost var pad: nat  // zero bytes supplied after the end of src

    /** Number of stream bits handed out so far. */
    ghost function Pos(): nat
      reads this
    {
      if cnt <= 8 * (pos + pad) then 8 * (pos + pad) - cnt else 0
    }

    /** The accumulator holds exactly the loaded but unread stream bits. */
    ghost predicate Loaded()
      reads this
    {
      && pos <= |src|
      && (pad > 0 ==> pos == |src|)
      && cnt <= 8 * (pos + pad)
      && buf == Value(Window(src, Pos(), cnt))
    }

    /** Between reads fewer than eight bits are buffered. */
    ghost predicate Valid()
      reads this
    {
      Loaded() && cnt < 8
    }

    constructor (src: seq<byte>)
      ensures Valid() && Pos() == 0 && this.src == src
    {
      this.src := src;
      pos, buf, cnt, pad := 0, 0, 0, 0;
    }

    /** bits_read: the next n stream bits as a number, first bit least significant. */
    method Read(n: nat) returns (val: nat)
      requires Valid() && n <= 25
      modifies this
      ensures Valid() && Pos() == old(Pos()) + n
      ensures val == Value(Window(src, old(Pos()), n))
    {
      hide Window, Value, Pow2;
      ghost var p := Pos();
      while cnt < n
        invariant Loaded() && Pos() == p
        invariant cnt < 8 || cnt < n + 8
        decreases n - cnt
      {
        LoadStep();
      }
      ghost var rest := cnt - n;
      assert cnt == n + rest;
      WindowSplit(src, p, n, rest);
      ValueSplit(Window(src, p, n), Window(src, p + n, rest));
      val := buf % Pow2(n);
      buf := buf / Pow2(n);
      cnt := cnt - n;
    }

    /** One turn of the refill loop: fetch a byte (zero past the end) and OR it in
        above the bits already buffered. */
    method LoadStep()
      requires Loaded() && cnt <= 24
      modifies this
      ensures Loaded() && Pos() == old(Pos()) && cnt == old(cnt) + 8
    {
      var b: byte := if pos < |src| then src[pos] else 0;
      AppendByte(src, Pos(), pos + pad, cnt, b);
      if pos < |src| { pos := pos + 1; } else { pad := pad + 1; }
      buf := BitOr(buf, Shl32(b, cnt));
      cnt := cnt + 8;
    }

    /** `b.buf = 0; b.cnt = 0`: drop the buffered bits, which moves to the next byte
        boundary and never past it. */
    method Align()
      requires Valid()
      modifies this
      ensures Valid() && cnt == 0
      ensures old(Pos()) <= Pos() < old(Pos()) + 8 && Pos() % 8 == 0
      ensures Pos() == 8 * (pos + pad) && pos == old(pos) && pad == old(pad)
    {
      buf, cnt := 0, 0;
    }
  }

  /** ORing the byte at k above `cnt` buffered bits that end at that byte boundary
      extends the buffered window by that byte. */
  lemma AppendByte(src: seq<byte>, p: nat, k: nat, cnt: nat, b: byte)
    requires cnt <= 24 && p + cnt == 8 * k
    requires b == if k < |src| then src[k] else 0
    ensures Value(Window(src, p, cnt + 8)) == BitOr(Value(Window(src, p, cnt)), Shl32(b, cnt))
  {
    hide Window, Value, Pow2, BitOr, Shl32;
    ByteWindow(src, k);
    WindowSplit(src, p, cnt, 8);
    ValueConcat(Window(src, p, cnt), Window(src, p + cnt, 8));
    ShiftFits(b, cnt);
    OrDisjoint(Value(Window(src, p, cnt)), b, cnt);
  }

  /** A byte shifted by at most 24 places keeps all its bits in 32. */
  lemma ShiftFits(b: byte, k: nat)
    requires k <= 24
    ensures Shl32(b, k) == b * Pow2(k)
  {
    Pow2Monotone(k, 24);
    Pow2Of24();
    MulMonotone(b, 255, Pow2(k));
    SmallMod(b * Pow2(k), TWO32);
  }

  lemma Pow2Of24()
    ensures Pow2(24) == 0x100_0000
  {
    Pow2Add(12, 12);
    assert Pow2(12) == 4096;
  }
}
