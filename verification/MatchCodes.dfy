/** The tables of section 3.2.5 of RFC 1951 by their law, and the symbol and extra bits of every length
    and distance by arithmetic. */
module MatchCodes {
  import opened BitMath
  import opened Deflate

  /** Each distance symbol begins where the one before it ends; from the fourth on, two symbols share each
      number of extra bits. */
  lemma DistanceLaw()
    ensures |DIST_BASE| == |DIST_EXTRA| == 30 && DIST_BASE[0] == 1
    ensures forall i :: 0 <= i < 30 ==> DIST_EXTRA[i] == if i < 4 then 0 else i / 2 - 1
    ensures forall i :: 0 <= i < 29 ==> DIST_BASE[i + 1] == DIST_BASE[i] + P2(DIST_EXTRA[i])
    ensures DIST_BASE[29] + P2(DIST_EXTRA[29]) == 32769
  {
    hide P2, DIST_BASE, DIST_EXTRA;
    DistanceExtras();
    LowDistances();
    HighDistances();
  }

  lemma DistanceExtras()
    ensures |DIST_BASE| == |DIST_EXTRA| == 30
    ensures forall i :: 0 <= i < 30 ==> DIST_EXTRA[i] == if i < 4 then 0 else i / 2 - 1
  {
  }

  lemma LowDistances()
    ensures forall i :: 0 <= i < 15 ==> DIST_BASE[i + 1] == DIST_BASE[i] + P2(DIST_EXTRA[i])
  {
    P2Small();
    assert forall i :: 0 <= i < 15 ==> 0 <= DIST_EXTRA[i] <= 6;
    hide P2;
  }

  lemma HighDistances()
    ensures forall i :: 15 <= i < 29 ==> DIST_BASE[i + 1] == DIST_BASE[i] + P2(DIST_EXTRA[i])
    ensures DIST_BASE[0] == 1 && DIST_BASE[29] + P2(DIST_EXTRA[29]) == 32769
  {
    P2Small();
    assert forall i :: 15 <= i < 30 ==> 6 <= DIST_EXTRA[i] <= 13;
    hide P2;
  }

  /** Likewise for lengths, four symbols to a number of extra bits from the eighth on; but the greatest
      length has a symbol of its own. */
  lemma LengthLaw()
    ensures |LENGTH_BASE| == |LENGTH_EXTRA| == 29 && LENGTH_BASE[0] == 3 && LENGTH_BASE[28] == 258
    ensures forall i :: 0 <= i < 29 ==> LENGTH_EXTRA[i] == if i < 8 || i == 28 then 0 else i / 4 - 1
    ensures forall i :: 0 <= i < 27 ==> LENGTH_BASE[i + 1] == LENGTH_BASE[i] + P2(LENGTH_EXTRA[i])
    ensures LENGTH_BASE[27] + P2(LENGTH_EXTRA[27]) == 259
  {
    LengthSteps();
    assert |LENGTH_BASE| == 29;
    hide P2, LENGTH_BASE;
  }

  lemma LengthSteps()
    ensures forall i :: 0 <= i < 27 ==> LENGTH_BASE[i + 1] == LENGTH_BASE[i] + P2(LENGTH_EXTRA[i])
    ensures LENGTH_BASE[0] == 3 && LENGTH_BASE[28] == 258 && LENGTH_BASE[27] + P2(LENGTH_EXTRA[27]) == 259
  {
    P2Small();
    assert forall i :: 0 <= i < 29 ==> 0 <= LENGTH_EXTRA[i] <= 5;
    hide P2;
  }

  // ---- Where symbols begin ----

  lemma {:induction false} DistanceStart(e: nat, q: nat)
    requires e <= 13 && q < 4 && (e == 0 || q >= 2)
    ensures DIST_EXTRA[2 * e + q] == e && DIST_BASE[2 * e + q] == 1 + Shl(q, e)
    decreases e, q
  {
    hide Shl, P2, DIST_BASE, DIST_EXTRA;
    DistanceLaw();
    if e == 0 && q == 0 {
      NoShift(0);
    } else {
      var e', q' := if e == 0 || q == 3 then e else e - 1, if e == 0 || q == 3 then q - 1 else 3;
      DistanceStart(e', q');
      assert 2 * e + q == 2 * e' + q' + 1;
      ShlNext(q', e');
      if e' < e {
        ShlDouble(2, e');
      }
    }
  }

  lemma {:induction false} LengthStart(e: nat, q: nat)
    requires e <= 5 && q < 8 && (e == 0 || q >= 4)
    ensures LENGTH_EXTRA[4 * e + q] == e && LENGTH_BASE[4 * e + q] == 3 + Shl(q, e)
    decreases e, q
  {
    hide Shl, P2, LENGTH_BASE, LENGTH_EXTRA;
    LengthLaw();
    if e == 0 && q == 0 {
      NoShift(0);
    } else {
      var e', q' := if e == 0 || q > 4 then e else e - 1, if e == 0 || q > 4 then q - 1 else 7;
      LengthStart(e', q');
      assert 4 * e + q == 4 * e' + q' + 1;
      ShlNext(q', e');
      if e' < e {
        ShlDouble(4, e');
      }
    }
  }

  // ---- From a number to its symbol ----

  /** How often x can be halved before it is below 2^n: its leading n bits are followed by that many. */
  function Extra(x: nat, n: nat): (e: nat)
    requires n >= 1
    ensures e > 0 ==> Shr(x, e) >= P2(n - 1)
    ensures Shr(x, e) < P2(n)
    decreases x
  {
    if x < P2(n) then 0
    else
      assert x >= 2;
      assert Shr(x, 1) == x / 2;
      var e := Extra(x / 2, n);
      e + 1
  }

  /** The symbol of a match length. */
  function LengthSymbol(len: nat): nat
    requires 3 <= len
  {
    if len == 258 then 285 else 257 + 4 * Extra(len - 3, 3) + Shr(len - 3, Extra(len - 3, 3))
  }

  function LengthExtraBits(len: nat): nat
    requires 3 <= len
  {
    if len == 258 then 0 else Extra(len - 3, 3)
  }

  /** The symbol of a distance. */
  function DistanceSymbol(dist: nat): nat
    requires 1 <= dist
  {
    2 * Extra(dist - 1, 2) + Shr(dist - 1, Extra(dist - 1, 2))
  }

  function DistanceExtraBits(dist: nat): nat
    requires 1 <= dist
  {
    Extra(dist - 1, 2)
  }

  /** There are at most k - n such bits in a number of k bits. */
  lemma {:induction false} ExtraBound(x: nat, n: nat, k: nat)
    requires 1 <= n <= k && x < P2(k)
    ensures Extra(x, n) <= k - n
    decreases k
  {
    if x >= P2(n) {
      if k > n {
        ExtraBound(x / 2, n, k - 1);
      }
    }
  }

  /** Every length from 3 to 258 is the base of its symbol and its extra bits. */
  lemma LengthCoded(len: nat)
    requires 3 <= len <= 258
    ensures var v, e := LengthSymbol(len), LengthExtraBits(len);
            && 257 <= v <= 285 && LENGTH_EXTRA[v - 257] == e <= 5
            && (len < 258 ==> LENGTH_BASE[v - 257] + Low(len - 3, e) == len)
            && (len == 258 ==> v == 285 && e == 0 && LENGTH_BASE[v - 257] == len)
  {
    P2Small();
    LengthLaw();
    hide Shl, P2, Shr, Low, LENGTH_BASE, LENGTH_EXTRA;
    var x := len - 3;
    var e := Extra(x, 3);
    ExtraBound(x, 3, 8);
    if len < 258 {
      assert Shr(x, e) < 8 && (e > 0 ==> Shr(x, e) >= 4);
      LengthStart(e, Shr(x, e));
      ShrLow(x, e);
    }
  }

  /** Every distance from 1 to 32768 is the base of its symbol and its extra bits. */
  lemma DistanceCoded(dist: nat)
    requires 1 <= dist <= 32768
    ensures var v, e := DistanceSymbol(dist), DistanceExtraBits(dist);
            v <= 29 && DIST_EXTRA[v] == e <= 13 && DIST_BASE[v] + Low(dist - 1, e) == dist
  {
    P2Small();
    hide Shl, P2, Shr, Low, DIST_BASE, DIST_EXTRA;
    var x := dist - 1;
    var e := Extra(x, 2);
    ExtraBound(x, 2, 15);
    assert Shr(x, e) < 4 && (e > 0 ==> Shr(x, e) >= 2);
    DistanceStart(e, Shr(x, e));
    ShrLow(x, e);
  }
}
