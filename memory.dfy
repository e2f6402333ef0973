// Byte-addressed memory of the Cortex-M0+ node: the parameter registry and
// the configuration record read and write typed values through memcpy, so
// values are stored as little-endian bytes and read back at a type's width.

module Memory {
  import Text

  newtype byte = x: int | 0 <= x < 256

  /** 256^w: the number of values w bytes can hold. */
  function Pow256(w: nat): (p: nat)
    ensures p >= 1
  {
    if w == 0 then 1 else 256 * Pow256(w - 1)
  }

  /** The w low-order bytes of v, least significant first (two's complement for v < 0). */
  function LittleEndian(v: int, w: nat): (r: seq<byte>)
    ensures |r| == w
    decreases w
  {
    if w == 0 then [] else [(v % 256) as byte] + LittleEndian(v / 256, w - 1)
  }

  /** The unsigned value of little-endian bytes. */
  function Unsigned(bs: seq<byte>): (v: nat)
    ensures v < Pow256(|bs|)
  {
    if |bs| == 0 then 0 else bs[0] as nat + 256 * Unsigned(bs[1..])
  }

  /** Half the range of w bytes: a signed type of that width holds [-Half(w), Half(w)). */
  function Half(w: nat): (h: int)
    ensures w >= 1 ==> Pow256(w) == 2 * h && h >= 1
  {
    if w == 0 then 0 else 128 * Pow256(w - 1)
  }

  /** The two's-complement value of little-endian bytes. */
  function Signed(bs: seq<byte>): (v: int)
    requires |bs| >= 1
    ensures -Half(|bs|) <= v < Half(|bs|)
  {
    var u := Unsigned(bs);
    if u >= Half(|bs|) then u - Pow256(|bs|) else u
  }

  /** A C cast of v to an unsigned type w bytes wide. */
  function WrapUnsigned(v: int, w: nat): (r: nat)
    ensures r < Pow256(w)
    ensures 0 <= v < Pow256(w) ==> r == v
  {
    var p := Pow256(w);
    if 0 <= v < p then Text.ModUnique(v, p, 0, v); v % p else v % p
  }

  /** A C cast of v to a signed type w bytes wide (two's complement wrap-around). */
  function WrapSigned(v: int, w: nat): (r: int)
    requires w >= 1
    ensures -Half(w) <= r < Half(w)
    ensures -Half(w) <= v < Half(w) ==> r == v
  {
    var u := WrapUnsigned(v, w);
    NegativeMod(v, Pow256(w));
    if u >= Half(w) then u - Pow256(w) else u
  }

  /** A negative v no smaller than -p is v + p modulo p. */
  lemma NegativeMod(v: int, p: int)
    requires p >= 1
    ensures -p <= v < 0 ==> v % p == v + p
  {
    if -p <= v < 0 {
      Text.ModUnique(v, p, -1, v + p);
    }
  }

  /** Splitting off the low byte of a value reduced modulo 256 * p. */
  lemma LowByteMod(v: int, p: nat)
    requires p >= 1
    ensures v % (256 * p) == 256 * ((v / 256) % p) + v % 256
  {
    var q, r := v / 256, v % 256;
    var a, b := q / p, q % p;
    assert v == (256 * p) * a + (256 * b + r) by {
      assert q == p * a + b;
      assert v == 256 * q + r;
      assert 256 * q == 256 * (p * a) + 256 * b;
      assert 256 * (p * a) == (256 * p) * a;
    }
    assert 256 * b + r < 256 * p by {
      assert b <= p - 1;
      assert 256 * b <= 256 * (p - 1);
    }
    Text.ModUnique(v, 256 * p, a, 256 * b + r);
  }

  /** Writing the bytes of v and reading them back gives v modulo 256^w. */
  lemma {:induction false} UnsignedLittleEndian(v: int, w: nat)
    ensures Unsigned(LittleEndian(v, w)) == WrapUnsigned(v, w)
    decreases w
  {
    if w > 0 {
      UnsignedLittleEndian(v / 256, w - 1);
      var bs := LittleEndian(v, w);
      assert bs[1..] == LittleEndian(v / 256, w - 1);
      LowByteMod(v, Pow256(w - 1));
    }
  }

  /** The signed reading of v's bytes is v cast to the signed type of that width. */
  lemma SignedLittleEndian(v: int, w: nat)
    requires w >= 1
    ensures Signed(LittleEndian(v, w)) == WrapSigned(v, w)
  {
    UnsignedLittleEndian(v, w);
  }

  /** The w bytes at address a. */
  function Read(m: seq<byte>, a: nat, w: nat): (r: seq<byte>)
    requires a + w <= |m|
    ensures |r| == w
  {
    m[a..a + w]
  }

  /** memcpy of bs to address a: the bytes there replaced, everything else unchanged. */
  function Write(m: seq<byte>, a: nat, bs: seq<byte>): (r: seq<byte>)
    requires a + |bs| <= |m|
    ensures |r| == |m|
    ensures r[a..a + |bs|] == bs
    ensures forall k :: 0 <= k < |m| && !(a <= k < a + |bs|) ==> r[k] == m[k]
  {
    m[..a] + bs + m[a + |bs|..]
  }

  /** A write at address 0 leaves every byte after it as it was. */
  lemma WriteKeepsTail(m: seq<byte>, bs: seq<byte>)
    requires |bs| <= |m|
    ensures Write(m, 0, bs)[|bs|..] == m[|bs|..]
  {
    var r := Write(m, 0, bs);
    assert forall k :: 0 <= k < |m| - |bs| ==> r[|bs|..][k] == r[|bs| + k];
  }

  /** memcpy (or EEPROM.put) of bs to address a, one byte at a time. */
  method Store(m: array<byte>, a: nat, bs: seq<byte>)
    requires a + |bs| <= m.Length
    modifies m
    ensures m[..] == Write(old(m[..]), a, bs)
  {
    var k: nat := 0;
    while k < |bs|
      invariant k <= |bs|
      invariant forall p :: 0 <= p < m.Length ==> m[p] == if a <= p < a + k then bs[p - a] else old(m[p])
    {
      m[a + k] := bs[k];
      k := k + 1;
    }
  }

  /** One memcpy of w bytes from src to dst. */
  datatype Move = Move(src: nat, dst: nat, w: nat)

  predicate MoveFits(mv: Move, size: nat)
  {
    mv.src + mv.w <= size && mv.dst + mv.w <= size
  }

  function Copy(m: seq<byte>, mv: Move): (r: seq<byte>)
    requires MoveFits(mv, |m|)
    ensures |r| == |m|
  {
    Write(m, mv.dst, Read(m, mv.src, mv.w))
  }

  /** memcpy of mv.w bytes from mv.src to mv.dst within one memory. */
  method CopyBytes(m: array<byte>, mv: Move)
    requires MoveFits(mv, m.Length)
    modifies m
    ensures m[..] == Copy(old(m[..]), mv)
  {
    var bs := m[mv.src..mv.src + mv.w];
    Store(m, mv.dst, bs);
  }

  /** The memory after the moves, performed in order. */
  function Copies(m: seq<byte>, moves: seq<Move>): (r: seq<byte>)
    requires forall k :: 0 <= k < |moves| ==> MoveFits(moves[k], |m|)
    ensures |r| == |m|
  {
    if |moves| == 0 then m
    else Copy(Copies(m, moves[..|moves| - 1]), moves[|moves| - 1])
  }

  /** Performing one more move. */
  lemma CopiesSnoc(m: seq<byte>, moves: seq<Move>, mv: Move)
    requires forall k :: 0 <= k < |moves| ==> MoveFits(moves[k], |m|)
    requires MoveFits(mv, |m|)
    ensures Copies(m, moves + [mv]) == Copy(Copies(m, moves), mv)
  {
    assert (moves + [mv])[..|moves|] == moves;
  }

  /** Bytes no move writes keep their value. */
  lemma {:induction false} CopiesFrame(m: seq<byte>, moves: seq<Move>, k: nat)
    requires forall j :: 0 <= j < |moves| ==> MoveFits(moves[j], |m|)
    requires k < |m|
    requires forall j :: 0 <= j < |moves| ==> !(moves[j].dst <= k < moves[j].dst + moves[j].w)
    ensures Copies(m, moves)[k] == m[k]
  {
    if |moves| > 0 {
      CopiesFrame(m, moves[..|moves| - 1], k);
    }
  }

  /** Byte ranges [a, a + n) and [b, b + l) share no byte. */
  predicate Disjoint(a: nat, n: nat, b: nat, l: nat)
  {
    a + n <= b || b + l <= a
  }

  /** No move writes into any move's source, and no two moves write the same byte. */
  predicate Independent(moves: seq<Move>)
  {
    (forall j, l :: 0 <= j < |moves| && 0 <= l < |moves| ==>
      Disjoint(moves[j].dst, moves[j].w, moves[l].src, moves[l].w)) &&
    (forall j, l :: 0 <= j < l < |moves| ==>
      Disjoint(moves[j].dst, moves[j].w, moves[l].dst, moves[l].w))
  }

  lemma IndependentPrefix(moves: seq<Move>, n: nat)
    requires Independent(moves) && n <= |moves|
    ensures Independent(moves[..n])
  {
    var p := moves[..n];
    assert forall j :: 0 <= j < n ==> p[j] == moves[j];
  }

  /** A move leaves alone every range disjoint from its destination. */
  lemma CopyKeeps(m: seq<byte>, mv: Move, a: nat, n: nat)
    requires MoveFits(mv, |m|) && a + n <= |m|
    requires Disjoint(mv.dst, mv.w, a, n)
    ensures Read(Copy(m, mv), a, n) == Read(m, a, n)
  {
    var r := Copy(m, mv);
    forall k | a <= k < a + n ensures r[k] == m[k] { }
  }

  /** Moves that never write into [a, a + n) leave it as it was. */
  lemma RangeKept(m: seq<byte>, moves: seq<Move>, a: nat, n: nat)
    requires forall j :: 0 <= j < |moves| ==> MoveFits(moves[j], |m|)
    requires a + n <= |m|
    requires forall j :: 0 <= j < |moves| ==> Disjoint(moves[j].dst, moves[j].w, a, n)
    ensures Read(Copies(m, moves), a, n) == Read(m, a, n)
  {
    var r := Copies(m, moves);
    forall k | a <= k < a + n
      ensures r[k] == m[k]
    {
      forall j | 0 <= j < |moves|
        ensures !(moves[j].dst <= k < moves[j].dst + moves[j].w)
      {
        assert Disjoint(moves[j].dst, moves[j].w, a, n);
      }
      CopiesFrame(m, moves, k);
    }
  }

  /** The last of the moves copies its source as the earlier moves left it: untouched. */
  lemma LastMoveCopies(m: seq<byte>, before: seq<Move>, last: Move)
    requires forall j :: 0 <= j < |before| ==> MoveFits(before[j], |m|)
    requires MoveFits(last, |m|)
    requires forall j :: 0 <= j < |before| ==> Disjoint(before[j].dst, before[j].w, last.src, last.w)
    ensures Read(Copy(Copies(m, before), last), last.dst, last.w) == Read(m, last.src, last.w)
  {
    RangeKept(m, before, last.src, last.w);
  }

  /**
   * When the moves are independent, every destination ends up holding what
   * its source held before.
   */
  lemma {:induction false} CopiesDisjoint(m: seq<byte>, moves: seq<Move>, i: nat)
    requires forall j :: 0 <= j < |moves| ==> MoveFits(moves[j], |m|)
    requires Independent(moves) && i < |moves|
    ensures Read(Copies(m, moves), moves[i].dst, moves[i].w) == Read(m, moves[i].src, moves[i].w)
  {
    var n := |moves| - 1;
    var before := moves[..n];
    var last := moves[n];
    assert forall j :: 0 <= j < n ==> before[j] == moves[j];
    assert Copies(m, moves) == Copy(Copies(m, before), last);
    if i < n {
      IndependentPrefix(moves, n);
      CopiesDisjoint(m, before, i);
      assert Disjoint(moves[i].dst, moves[i].w, moves[n].dst, moves[n].w);
      CopyKeeps(Copies(m, before), last, moves[i].dst, moves[i].w);
    } else {
      assert forall j :: 0 <= j < n ==> Disjoint(before[j].dst, before[j].w, last.src, last.w);
      LastMoveCopies(m, before, last);
    }
  }

  /** Moves whose destinations already hold their sources' bytes change nothing. */
  lemma {:induction false} CopiesNoop(m: seq<byte>, moves: seq<Move>)
    requires forall j :: 0 <= j < |moves| ==> MoveFits(moves[j], |m|)
    requires forall j :: 0 <= j < |moves| ==>
      MoveFits(moves[j], |m|) && Read(m, moves[j].dst, moves[j].w) == Read(m, moves[j].src, moves[j].w)
    ensures Copies(m, moves) == m
  {
    if |moves| > 0 {
      var n := |moves| - 1;
      var before := moves[..n];
      assert forall j :: 0 <= j < n ==> before[j] == moves[j];
      CopiesNoop(m, before);
      assert Copies(m, moves) == Copy(Copies(m, before), moves[n]);
      CopyNoop(m, moves[n]);
    }
  }

  /** A move whose destination already holds its source's bytes changes nothing. */
  lemma CopyNoop(m: seq<byte>, mv: Move)
    requires MoveFits(mv, |m|) && Read(m, mv.dst, mv.w) == Read(m, mv.src, mv.w)
    ensures Copy(m, mv) == m
  {
    var r := Copy(m, mv);
    forall k | 0 <= k < |m|
      ensures r[k] == m[k]
    {
      if mv.dst <= k < mv.dst + mv.w {
        assert r[k] == r[mv.dst..mv.dst + mv.w][k - mv.dst];
      }
    }
  }

  /** Performing independent moves a second time changes nothing. */
  lemma CopiesTwice(m: seq<byte>, moves: seq<Move>)
    requires forall j :: 0 <= j < |moves| ==> MoveFits(moves[j], |m|)
    requires Independent(moves)
    ensures Copies(Copies(m, moves), moves) == Copies(m, moves)
  {
    var r := Copies(m, moves);
    forall j | 0 <= j < |moves|
      ensures Read(r, moves[j].dst, moves[j].w) == Read(r, moves[j].src, moves[j].w)
    {
      CopiesDisjoint(m, moves, j);
      RangeKept(m, moves, moves[j].src, moves[j].w);
    }
    CopiesNoop(r, moves);
  }
}
