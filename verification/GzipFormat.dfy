/** The member header of RFC 1952 section 2.3. */
module GzipFormat {
  import opened ZLib

  /** Body: the deflate data starts at byte at. */
  datatype Header = NotGzip | Malformed | Body(at: nat)

  /** n bytes on from p; beyond the end of d if d ends first. */
  function Skip(d: seq<byte>, p: nat, n: nat): nat {
    if p + n <= |d| then p + n else |d| + 1
  }

  /** Past the next zero byte. */
  function SkipString(d: seq<byte>, p: nat): nat
    decreases |d| - p
  {
    if p >= |d| then |d| + 1 else if d[p] == 0 then p + 1 else SkipString(d, p + 1)
  }

  /** Past an extra field. */
  function SkipExtra(d: seq<byte>, p: nat): nat {
    if p + 2 <= |d| then Skip(d, p + 2, d[p] + 256 * (d[p + 1] as nat)) else |d| + 1
  }

  predicate Flag(flags: nat, bit: nat)
    requires bit > 0
  {
    (flags / bit) % 2 == 1
  }

  /** Where the optional fields after the fixed ones end. */
  function Fields(d: seq<byte>, flags: nat): nat {
    var p0 := Skip(d, 4, 6);
    var p1 := if Flag(flags, 4) then SkipExtra(d, p0) else p0;
    var p2 := if Flag(flags, 8) then SkipString(d, p1) else p1;
    var p3 := if Flag(flags, 16) then SkipString(d, p2) else p2;
    if Flag(flags, 2) then Skip(d, p3, 2) else p3
  }

  function ReadHeader(d: seq<byte>): Header {
    if |d| < 2 || d[0] != 0x1f || d[1] != 0x8b then NotGzip
    else if |d| < 4 || d[2] != 8 || d[3] / 32 != 0 then Malformed
    else if Fields(d, d[3]) > |d| then Malformed
    else Body(Fields(d, d[3]))
  }

  // ---- Reading a header from the beginning of a file ----

  /** pd in the beginning d of a file is pf in the whole file, or both lie beyond d. */
  predicate SamePlace(d: seq<byte>, pd: nat, pf: nat) {
    if pf <= |d| then pd == pf else pd > |d|
  }

  lemma SkipSame(f: seq<byte>, d: seq<byte>, pd: nat, pf: nat, n: nat)
    requires d <= f && SamePlace(d, pd, pf)
    ensures SamePlace(d, Skip(d, pd, n), Skip(f, pf, n))
  {
  }

  lemma {:induction false} StringSame(f: seq<byte>, d: seq<byte>, pd: nat, pf: nat)
    requires d <= f && SamePlace(d, pd, pf)
    ensures SamePlace(d, SkipString(d, pd), SkipString(f, pf))
    decreases |f| - pf
  {
    if pf < |d| && d[pf] != 0 {
      StringSame(f, d, pf + 1, pf + 1);
    } else if pf >= |d| {
      StringBeyond(f, pf);
    }
  }

  lemma {:induction false} StringBeyond(f: seq<byte>, p: nat)
    ensures SkipString(f, p) > p || SkipString(f, p) == |f| + 1
    decreases |f| - p
  {
    if p < |f| && f[p] != 0 {
      StringBeyond(f, p + 1);
    }
  }

  lemma ExtraSame(f: seq<byte>, d: seq<byte>, pd: nat, pf: nat)
    requires d <= f && SamePlace(d, pd, pf)
    ensures SamePlace(d, SkipExtra(d, pd), SkipExtra(f, pf))
  {
    if pf + 2 <= |d| {
      SkipSame(f, d, pf + 2, pf + 2, d[pf] + 256 * (d[pf + 1] as nat));
    }
  }

  lemma FieldsSame(f: seq<byte>, d: seq<byte>, flags: nat)
    requires d <= f && |d| >= 4
    ensures SamePlace(d, Fields(d, flags), Fields(f, flags))
  {
    hide Skip, SkipString, SkipExtra, Flag;
    var p0, q0 := Skip(d, 4, 6), Skip(f, 4, 6);
    SkipSame(f, d, 4, 4, 6);
    ExtraSame(f, d, p0, q0);
    var p1, q1 := if Flag(flags, 4) then SkipExtra(d, p0) else p0, if Flag(flags, 4) then SkipExtra(f, q0) else q0;
    StringSame(f, d, p1, q1);
    var p2, q2 := if Flag(flags, 8) then SkipString(d, p1) else p1, if Flag(flags, 8) then SkipString(f, q1) else q1;
    StringSame(f, d, p2, q2);
    var p3, q3 := if Flag(flags, 16) then SkipString(d, p2) else p2, if Flag(flags, 16) then SkipString(f, q2) else q2;
    SkipSame(f, d, p3, q3, 2);
  }

  /** The beginning of a file shows a header just when the file has one that ends within it. */
  lemma HeaderWithin(f: seq<byte>, d: seq<byte>, h: nat)
    requires d <= f
    ensures ReadHeader(d) == Body(h) <==> ReadHeader(f) == Body(h) && h <= |d|
  {
    hide Fields;
    if |d| >= 4 {
      FieldsSame(f, d, d[3]);
    } else if |f| >= 4 {
      FieldsBeyond(f, f[3]);
    }
  }

  lemma FieldsBeyond(f: seq<byte>, flags: nat)
    ensures Fields(f, flags) >= 4 || Fields(f, flags) == |f| + 1
  {
    var p0 := Skip(f, 4, 6);
    var p1 := if Flag(flags, 4) then SkipExtra(f, p0) else p0;
    StringBeyond(f, p1);
    var p2 := if Flag(flags, 8) then SkipString(f, p1) else p1;
    StringBeyond(f, p2);
  }
}
