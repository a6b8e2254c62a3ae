/** Strings of bits as section 3.1.1 of RFC 1951 puts them into bytes, and what a decoder reads where a
    string of bits lies. */
module BitStrings {
  import opened BitMath
  import opened Words
  import opened Huffman
  import opened Deflate
  import opened ZLib
  import InfUtil

  type Bitstring = seq<bool>

  /** A number of n bits, the lowest bit first, as everything but Huffman codes is sent. */
  function Lsb(v: nat, n: nat): (b: Bitstring)
    ensures |b| == n
  {
    if n == 0 then [] else [v % 2 == 1] + Lsb(v / 2, n - 1)
  }

  /** A number of n bits, the highest bit first, as Huffman codes are sent. */
  function MsbFirst(v: nat, n: nat): (b: Bitstring)
    ensures |b| == n
  {
    if n == 0 then [] else MsbFirst(v / 2, n - 1) + [v % 2 == 1]
  }

  /** The bits of a number sent highest first are those of its upper part and then those of the rest. */
  lemma {:induction false} MsbParts(q: nat, r: nat, a: nat, b: nat)
    requires r < P2(b)
    ensures MsbFirst(Shl(q, b) + r, a + b) == MsbFirst(q, a) + MsbFirst(r, b)
    decreases b
  {
    if b == 0 {
      NoShift(q);
    } else {
      var v := Shl(q, b) + r;
      assert v / 2 == Shl(q, b - 1) + r / 2 && v % 2 == r % 2;
      MsbParts(q, r / 2, a, b - 1);
      assert a + (b - 1) == a + b - 1;
    }
  }

  /** The number whose bits these are, the lowest first. */
  function Value(b: Bitstring): (v: nat) {
    if b == [] then 0 else (if b[0] then 1 else 0) + 2 * Value(b[1..])
  }

  lemma {:induction false} LsbValue(v: nat, n: nat)
    requires v < P2(n)
    ensures Value(Lsb(v, n)) == v
    decreases n
  {
    if n > 0 {
      var b := Lsb(v, n);
      assert b[1..] == Lsb(v / 2, n - 1);
      LsbValue(v / 2, n - 1);
    }
  }

  /** The bits in bytes, the first bit in the lowest place of the first byte; zero bits fill up the
      last byte. */
  function Packed(b: Bitstring): (d: seq<byte>)
    ensures |d| == ByteCount(|b|)
    decreases |b|
  {
    if |b| == 0 then []
    else if |b| < 8 then
      ValueBound(b, 7);
      [Value(b)]
    else
      ValueBound(b[..8], 8);
      [Value(b[..8])] + Packed(b[8..])
  }

  /** How many bytes n bits take. */
  function ByteCount(n: nat): nat { (n + 7) / 8 }

  lemma {:induction false} ValueBound(b: Bitstring, n: nat)
    requires |b| <= n <= 8
    ensures Value(b) < P2(n) <= 256
  {
    P2Small();
    if b != [] {
      ValueBound(b[1..], n - 1);
    }
  }

  /** The bit at position p of the input. */
  predicate BitAt(s: Stream, p: nat) {
    At(s, p) % 2 == 1
  }

  /** The bits b lie at position pos of the input. */
  predicate Written(s: Stream, pos: nat, b: Bitstring) {
    pos + |b| <= End(s) && forall k :: 0 <= k < |b| ==> (BitAt(s, pos + k) <==> b[k])
  }

  lemma WrittenParts(s: Stream, pos: nat, a: Bitstring, b: Bitstring)
    ensures Written(s, pos, a + b) <==> Written(s, pos, a) && Written(s, pos + |a|, b)
  {
    hide BitAt;
    var c := a + b;
    if Written(s, pos, c) {
      forall k | 0 <= k < |a|
        ensures BitAt(s, pos + k) <==> a[k]
      {
        assert c[k] == a[k];
      }
      forall k | 0 <= k < |b|
        ensures BitAt(s, pos + |a| + k) <==> b[k]
      {
        assert c[|a| + k] == b[k];
        assert pos + |a| + k == pos + (|a| + k);
      }
    }
    if Written(s, pos, a) && Written(s, pos + |a|, b) {
      forall k | 0 <= k < |c|
        ensures BitAt(s, pos + k) <==> c[k]
      {
        if k >= |a| {
          assert c[k] == b[k - |a|];
          assert pos + k == pos + |a| + (k - |a|);
        }
      }
    }
  }

  // ---- Reading ----

  lemma AtNext(s: Stream, pos: nat, n: nat)
    ensures At(s, pos + n) == Shr(At(s, pos), n)
  {
    CutTwice(Num(s.data), pos, n);
  }

  /** A number sent with its lowest bit first. */
  lemma {:induction false} ReadLsb(s: Stream, pos: nat, v: nat, n: nat)
    requires Written(s, pos, Lsb(v, n)) && v < P2(n)
    ensures Bits(s, pos, n) == v
    decreases n
  {
    hide At, Low;
    if n == 0 {
      NoBits(At(s, pos));
    } else {
      assert Lsb(v, n)[0] == (v % 2 == 1);
      assert BitAt(s, pos + 0) <==> Lsb(v, n)[0];
      WrittenParts(s, pos, [v % 2 == 1], Lsb(v / 2, n - 1));
      ReadLsb(s, pos + 1, v / 2, n - 1);
      AtNext(s, pos, 1);
      ShrNext(At(s, pos), 1);
      NoBits(At(s, pos) / 2);
      LowHalf(At(s, pos), n);
    }
  }

  /** A code, sent with its highest bit first. */
  lemma {:induction false} ReadMsb(s: Stream, pos: nat, v: nat, n: nat)
    requires Written(s, pos, MsbFirst(v, n)) && v < P2(n)
    ensures Msb(At(s, pos), n) == v
    decreases n
  {
    hide At, Low, Shr;
    if n > 0 {
      assert MsbFirst(v, n)[n - 1] == (v % 2 == 1);
      WrittenParts(s, pos, MsbFirst(v / 2, n - 1), [v % 2 == 1]);
      ReadMsb(s, pos, v / 2, n - 1);
      AtNext(s, pos, n - 1);
      assert BitAt(s, pos + (n - 1)) <==> MsbFirst(v, n)[n - 1];
    }
  }

  // ---- Packing ----

  lemma {:induction false} ValueBit(b: Bitstring, k: nat)
    requires k < |b|
    ensures Shr(Value(b), k) % 2 == 1 <==> b[k]
    decreases k
  {
    hide Shr;
    NoBits(Value(b));
    LastBit(if b[0] then 1 else 0, Value(b[1..]));
    if k > 0 {
      ShrNext(Value(b), k);
      ValueBit(b[1..], k - 1);
    }
  }

  /** Bits packed into bytes lie there, whatever comes before and behind. */
  lemma {:induction false} PackedWritten(s: Stream, pre: seq<byte>, b: Bitstring, post: seq<byte>)
    requires s.data == pre + Packed(b) + post
    ensures Written(s, 8 * |pre|, b)
    decreases |b|
  {
    hide BitAt, Value, Written;
    if |b| == 0 {
      NothingWritten(s, 8 * |pre|);
      assert b == [];
    } else if |b| < 8 {
      assert s.data[|pre|] == Value(b);
      ByteWritten(s, |pre|, b);
    } else {
      var a, c := b[..8], b[8..];
      assert s.data[|pre|] == Value(a);
      ByteWritten(s, |pre|, a);
      assert s.data == (pre + [s.data[|pre|]]) + Packed(c) + post;
      PackedWritten(s, pre + [s.data[|pre|]], c, post);
      WrittenParts(s, 8 * |pre|, a, c);
      assert a + c == b;
    }
  }

  lemma NothingWritten(s: Stream, pos: nat)
    requires pos <= End(s)
    ensures Written(s, pos, [])
  {
  }

  lemma ByteWritten(s: Stream, p: nat, b: Bitstring)
    requires |b| <= 8 && p < |s.data| && s.data[p] == Value(b)
    ensures Written(s, 8 * p, b)
  {
    forall k | 0 <= k < |b|
      ensures BitAt(s, 8 * p + k) <==> b[k]
    {
      hide Low, Shr, Value, Num;
      InfUtil.ByteAt(s.data, p);
      AtNext(s, 8 * p, k);
      BitOfLow(At(s, 8 * p), k, 8);
      ValueBit(b, k);
    }
  }
}
