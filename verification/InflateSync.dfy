/** zlib/inflate.c: inflateSync, which skips damaged data up to the marker that ends a full flush, an
    empty stored block's length fields 00 00 FF FF. */
module InflateSync {
  import opened ZLib
  import opened ZlibInflate

  const MARKER: seq<byte> := [0, 0, 0xff, 0xff]

  /** s ends with the first k bytes of the marker. */
  predicate EndsWith(s: seq<byte>, k: nat) {
    k <= 4 && k <= |s| && s[|s| - k..] == MARKER[..k]
  }

  /** m is the length of the longest prefix of the marker that s ends with. */
  ghost predicate Overlap(s: seq<byte>, m: nat) {
    EndsWith(s, m) && forall k :: m < k <= 4 ==> !EndsWith(s, k)
  }

  /** The marker does not occur in s, except perhaps at its end. */
  ghost predicate NoneBefore(s: seq<byte>) {
    forall j :: 0 <= j < |s| ==> !EndsWith(s[..j], 4)
  }

  /** The loop body of inflateSync: one more byte. */
  function Next(m: nat, b: byte): nat {
    if b == (if m < 2 then 0 else 0xff) then m + 1 else if b != 0 then 0 else if m <= 4 then 4 - m else 0
  }

  lemma EndsWithNext(s: seq<byte>, b: byte, k: nat)
    requires k < 4
    ensures EndsWith(s + [b], k + 1) <==> EndsWith(s, k) && b == MARKER[k]
  {
    var t := s + [b];
    if k <= |s| {
      assert t[|t| - (k + 1)..] == s[|s| - k..] + [b];
      assert MARKER[..k + 1] == MARKER[..k] + [MARKER[k]];
      if t[|t| - (k + 1)..] == MARKER[..k + 1] {
        assert s[|s| - k..] == t[|t| - (k + 1)..][..k];
        assert b == t[|t| - (k + 1)..][k];
      }
    }
  }

  /** The last bytes of s, when it ends with m bytes of the marker. */
  lemma EndsWithShorter(s: seq<byte>, m: nat)
    requires EndsWith(s, m)
    ensures EndsWith(s, 0)
    ensures m == 2 ==> EndsWith(s, 1)
    ensures m == 3 ==> !EndsWith(s, 1) && !EndsWith(s, 2)
  {
    if m >= 1 {
      LastIs(s, m);
    }
    if m == 2 {
      assert s[|s| - 1..] == [0];
    }
    if m == 3 && EndsWith(s, 1) {
      LastIs(s, 1);
      assert false;
    }
    if m == 3 && EndsWith(s, 2) {
      LastIs(s, 2);
      assert false;
    }
  }

  lemma LastIs(s: seq<byte>, k: nat)
    requires EndsWith(s, k) && k > 0
    ensures s[|s| - 1] == MARKER[k - 1]
  {
    assert s[|s| - 1] == s[|s| - k..][k - 1];
  }

  lemma EndsWithNothing(s: seq<byte>)
    ensures EndsWith(s, 0)
  {
  }

  /** Next is right: it keeps m the longest overlap.  This is where 4 - m comes from: after 00 00 a
      further 00 leaves two bytes matched, after 00 00 FF it leaves one. */
  lemma NextIsOverlap(s: seq<byte>, m: nat, b: byte)
    requires m < 4 && Overlap(s, m)
    ensures Next(m, b) <= 4 && Overlap(s + [b], Next(m, b))
  {
    hide EndsWith;
    EndsWithShorter(s, m);
    EndsWithNothing(s + [b]);
    EndsWithNext(s, b, 0);
    EndsWithNext(s, b, 1);
    EndsWithNext(s, b, 2);
    EndsWithNext(s, b, 3);
  }

  /** The fields of z_stream and internal_state that inflateSync uses; input is the memory that
      next_in moves through. */
  class SyncStream {
    const input: seq<byte>
    var next_in: nat
    var avail_in: nat
    var total_in: nat
    var total_out: nat
    var mode: InflateMode
    ghost var seen: seq<byte>   // what has been skipped since the search began

    constructor (input: seq<byte>, next_in: nat, avail_in: nat, mode: InflateMode)
      requires next_in + avail_in <= |input| && (mode.BAD? ==> mode.marker == 0 || mode.marker == 5)
      ensures Valid() && this.input == input && this.next_in == next_in && this.avail_in == avail_in
      ensures this.mode == mode
    {
      this.input, this.next_in, this.avail_in, this.mode := input, next_in, avail_in, mode;
      total_in, total_out, seen := next_in, 0, [];
    }

    /** During a search marker is the longest overlap with the marker, which has not yet occurred. */
    ghost predicate Valid()
      reads this
    {
      && next_in + avail_in <= |input|
      && (mode.BAD? ==> mode.marker == 5 || (mode.marker < 4 && Overlap(seen, mode.marker) && NoneBefore(seen + [0])))
    }

    /** The search loop. */
    method Search(m0: nat)
      returns (p: nat, m: nat)
      requires next_in + avail_in <= |input| && (m0 == 5 || (m0 < 4 && Overlap(seen, m0) && NoneBefore(seen + [0])))
      ensures next_in <= p <= next_in + avail_in && (m0 == 5 ==> p == next_in && m == 5)
      ensures m0 < 4 ==> m <= 4 && Overlap(seen + input[next_in..p], m) && NoneBefore(seen + input[next_in..p])
      ensures m0 < 4 && m < 4 ==> p == next_in + avail_in && NoneBefore(seen + input[next_in..p] + [0])
    {
      hide EndsWith, Overlap, NoneBefore;
      p, m := next_in, m0;
      var n := avail_in;
      assert seen + input[next_in..p] == seen;
      NoneShorter(seen);
      while n > 0 && m < 4
        invariant p + n == next_in + avail_in && next_in <= p && 0 <= n && (m0 == 5 ==> p == next_in && m == 5)
        invariant m0 < 4 ==> m <= 4 && Overlap(seen + input[next_in..p], m) && NoneBefore(seen + input[next_in..p])
        invariant m0 < 4 && m < 4 ==> NoneBefore(seen + input[next_in..p] + [0])
      {
        ghost var s := seen + input[next_in..p];
        NextIsOverlap(s, m, input[p]);
        NoneNext(s, input[p], m);
        assert seen + input[next_in..p + 1] == s + [input[p]];
        if input[p] == (if m < 2 then 0 else 0xff) {
          m := m + 1;
        } else if input[p] != 0 {
          m := 0;
        } else {
          m := 4 - m;
        }
        p, n := p + 1, n - 1;
      }
    }

    /** inflateSync.  With any number of calls on whatever portions of input, it stops right after the
        first occurrence of the marker in what it was given. */
    method Sync() returns (r: int)
      requires Valid()
      modifies this
      ensures Valid()
      ensures next_in + avail_in == old(next_in + avail_in) && next_in >= old(next_in)
      ensures total_in - old(total_in) == next_in - old(next_in) && total_out == old(total_out)
      ensures r == Z_BUF_ERROR <==> old(avail_in) == 0
      ensures r in {Z_BUF_ERROR, Z_OK, Z_DATA_ERROR}
      ensures old(mode.BAD?) && old(mode.marker) == 5 ==> r != Z_OK && next_in == old(next_in) && mode == old(mode)
      ensures r == Z_DATA_ERROR ==>
                mode.BAD? && ((old(mode.BAD?) && old(mode.marker) == 5) || (avail_in == 0 && mode.marker < 4))
      ensures !(old(mode.BAD?) && old(mode.marker) == 5) ==>
                seen == (if old(mode.BAD?) then old(seen) else []) + input[old(next_in)..next_in]
      ensures r == Z_OK ==> mode == BLOCKS && EndsWith(seen, 4) && NoneBefore(seen)
      ensures r != Z_OK ==> mode.BAD? && avail_in == (if mode.marker == 5 then old(avail_in) else 0)
      ensures !(old(mode.BAD?) && old(mode.marker) == 5) && mode.BAD? ==> mode.marker != 5
    {
      if !mode.BAD? {
        mode := InflateMode.BAD(0);
        seen := [];
        NothingSeen();
      }
      if avail_in == 0 {
        assert seen + input[next_in..next_in] == seen;
        return Z_BUF_ERROR;
      }
      var p, m := Search(mode.marker);
      if mode.marker != 5 {
        seen := seen + input[next_in..p];
      }
      total_in := total_in + (p - next_in);
      avail_in := avail_in - (p - next_in);
      next_in := p;
      mode := InflateMode.BAD(m);
      if m != 4 {
        return Z_DATA_ERROR;
      }
      mode := BLOCKS;
      r := Z_OK;
    }
  }

  function Total(portions: seq<nat>): nat {
    if portions == [] then 0 else Total(portions[..|portions| - 1]) + portions[|portions| - 1]
  }

  lemma {:induction false} TotalMono(portions: seq<nat>, n: nat)
    requires n <= |portions|
    ensures Total(portions[..n]) <= Total(portions)
    decreases |portions| - n
  {
    if n < |portions| {
      assert portions[..n + 1][..n] == portions[..n];
      TotalMono(portions, n + 1);
    } else {
      assert portions[..n] == portions;
    }
  }

  /** The marker occurs in s. */
  ghost predicate Occurs(s: seq<byte>) {
    exists j :: 0 <= j <= |s| && EndsWith(s[..j], 4)
  }

  lemma NotYet(s: seq<byte>)
    requires NoneBefore(s + [0])
    ensures !Occurs(s)
  {
    forall j | 0 <= j <= |s|
      ensures !EndsWith(s[..j], 4)
    {
      assert (s + [0])[..j] == s[..j];
    }
  }

  /** A new search, the input being supplied in any portions, with a call after each: the marker is found
      just when it occurs in them, and then the search stops right behind its first occurrence. */
  method SyncAll(s: SyncStream, portions: seq<nat>) returns (found: bool)
    requires s.Valid() && !s.mode.BAD? && s.avail_in == 0 && s.next_in + Total(portions) <= |s.input|
    modifies s
    ensures s.Valid() && old(s.next_in) <= s.next_in <= old(s.next_in) + Total(portions)
    ensures s.total_in - old(s.total_in) == s.next_in - old(s.next_in) && s.total_out == old(s.total_out)
    ensures found <==> Occurs(s.input[old(s.next_in)..old(s.next_in) + Total(portions)])
    ensures found ==>
              var d := s.input[old(s.next_in)..s.next_in];
              s.mode == BLOCKS && EndsWith(d, 4) && NoneBefore(d)
    ensures !found ==> s.next_in == old(s.next_in) + Total(portions)
  {
    hide EndsWith, NoneBefore, Overlap;
    ghost var start := s.next_in;
    var n := 0;
    found := false;
    assert s.input[start..start] == [];
    NothingSeen();
    while n < |portions|
      invariant 0 <= n <= |portions| && s.Valid() && s.avail_in == 0 && s.next_in == start + Total(portions[..n])
      invariant s.total_in - old(s.total_in) == s.next_in - start && s.total_out == old(s.total_out)
      invariant if n == 0 || !s.mode.BAD? then !s.mode.BAD? && s.next_in == start
                else s.mode.marker < 4 && s.seen == s.input[start..s.next_in]
    {
      assert portions[..n + 1][..n] == portions[..n];
      TotalMono(portions, n + 1);
      ghost var p := s.next_in;
      s.avail_in := portions[n];
      var r := s.Sync();
      assert s.input[start..p] + s.input[p..s.next_in] == s.input[start..s.next_in];
      n := n + 1;
      if r == Z_OK {
        FoundIn(s.input, start, s.next_in, start + Total(portions));
        return true;
      }
    }
    assert portions[..n] == portions;
    NotYet(s.input[start..s.next_in]);
  }

  lemma FoundIn(input: seq<byte>, start: nat, p: nat, end: nat)
    requires start <= p <= end <= |input| && EndsWith(input[start..p], 4)
    ensures Occurs(input[start..end])
  {
    assert input[start..end][..p - start] == input[start..p];
  }

  lemma NothingSeen()
    ensures Overlap([], 0) && NoneBefore([0])
  {
  }

  lemma NoneShorter(s: seq<byte>)
    ensures NoneBefore(s + [0]) ==> NoneBefore(s)
  {
    if NoneBefore(s + [0]) {
      forall j | 0 <= j < |s|
        ensures !EndsWith(s[..j], 4)
      {
        assert (s + [0])[..j] == s[..j];
      }
    }
  }

  lemma NoneNext(s: seq<byte>, b: byte, m: nat)
    requires m < 4 && Overlap(s, m) && NoneBefore(s + [0]) && Overlap(s + [b], Next(m, b))
    ensures NoneBefore(s + [b])
    ensures Next(m, b) < 4 ==> NoneBefore(s + [b] + [0])
  {
    forall j | 0 <= j < |s + [b]|
      ensures !EndsWith((s + [b])[..j], 4)
    {
      assert (s + [b])[..j] == (s + [0])[..j];
    }
    if Next(m, b) < 4 {
      forall j | 0 <= j < |s + [b] + [0]|
        ensures !EndsWith((s + [b] + [0])[..j], 4)
      {
        if j <= |s| {
          assert (s + [b] + [0])[..j] == (s + [b])[..j];
        } else {
          assert (s + [b] + [0])[..j] == s + [b];
        }
      }
    }
  }
}
