/** The header of a gzip member as section 2.3.1 of RFC 1952 has it written, and that it is skipped. */
module GzipWriter {
  import opened ZLib
  import opened GzipFormat

  datatype Optional<T> = None | Some(value: T)

  predicate ZeroFree(d: seq<byte>) {
    forall i :: 0 <= i < |d| ==> d[i] != 0
  }

  /** A header: whether the data is probably text, what is optional, and what is not. */
  datatype Member = Member(text: bool, check: Optional<seq<byte>>, extra: Optional<seq<byte>>,
                           name: Optional<seq<byte>>, comment: Optional<seq<byte>>, mtime: seq<byte>, xfl: byte,
                           os: byte) {
    predicate Valid() {
      && |mtime| == 4 && (check.Some? ==> |check.value| == 2) && (extra.Some? ==> |extra.value| < 0x1_0000)
      && (name.Some? ==> ZeroFree(name.value)) && (comment.Some? ==> ZeroFree(comment.value))
    }

    function Flags(): (f: byte)
      ensures f < 32
    {
      (if text then 1 else 0) + (if check.Some? then 2 else 0) + (if extra.Some? then 4 else 0)
      + (if name.Some? then 8 else 0) + if comment.Some? then 16 else 0
    }

    function Fixed(): (d: seq<byte>)
      requires Valid()
      ensures |d| == 10
    {
      [0x1f, 0x8b, 8, Flags()] + mtime + [xfl, os]
    }

    function Extra(): seq<byte>
      requires Valid()
    {
      if extra.None? then [] else [|extra.value| % 256, |extra.value| / 256] + extra.value
    }

    function Check(): seq<byte>
      requires Valid()
    {
      if check.None? then [] else check.value
    }

    function Written(): seq<byte>
      requires Valid()
    {
      Fixed() + Extra() + Ended(name) + Ended(comment) + Check()
    }
  }

  /** A string with a zero behind it. */
  function Ended(s: Optional<seq<byte>>): seq<byte> {
    if s.None? then [] else s.value + [0]
  }

  // ---- Skipping ----

  lemma {:induction false} StringSkipped(d: seq<byte>, p: nat, s: seq<byte>)
    requires p + |s| < |d| && d[p..p + |s|] == s && ZeroFree(s) && d[p + |s|] == 0
    ensures SkipString(d, p) == p + |s| + 1
    decreases |s|
  {
    if s != [] {
      assert d[p] == d[p..p + |s|][0] == s[0] != 0;
      assert d[p + 1..p + 1 + |s[1..]|] == d[p..p + |s|][1..] == s[1..];
      StringSkipped(d, p + 1, s[1..]);
    }
  }

  /** An optional string is skipped, if the flag says that it is there. */
  lemma EndedSkipped(d: seq<byte>, a: seq<byte>, s: Optional<seq<byte>>, b: seq<byte>)
    requires d == a + Ended(s) + b && (s.Some? ==> ZeroFree(s.value))
    ensures s.Some? ==> SkipString(d, |a|) == |a| + |Ended(s)|
  {
    if s.Some? {
      assert d[|a|..|a| + |s.value|] == s.value;
      assert d[|a| + |s.value|] == Ended(s)[|s.value|] == 0;
      StringSkipped(d, |a|, s.value);
    }
  }

  lemma ExtraSkipped(d: seq<byte>, a: seq<byte>, m: Member, b: seq<byte>)
    requires m.Valid() && d == a + m.Extra() + b && m.extra.Some?
    ensures SkipExtra(d, |a|) == |a| + |m.Extra()|
  {
    assert d[|a|] == m.Extra()[0] && d[|a| + 1] == m.Extra()[1];
  }

  lemma FlagsRead(m: Member)
    ensures Flag(m.Flags(), 2) == m.check.Some? && Flag(m.Flags(), 4) == m.extra.Some?
    ensures Flag(m.Flags(), 8) == m.name.Some? && Flag(m.Flags(), 16) == m.comment.Some?
  {
  }

  lemma FieldsSkipped(m: Member, body: seq<byte>)
    requires m.Valid()
    ensures Fields(m.Written() + body, m.Flags()) == |m.Written()|
  {
    hide SkipString, SkipExtra, Flag, Member.Fixed, Member.Extra, Ended, Member.Check, Member.Flags;
    FlagsRead(m);
    var d := m.Written() + body;
    var a := m.Fixed();
    var b := a + m.Extra();
    var c := b + Ended(m.name);
    var e := c + Ended(m.comment);
    NothingThere(m);
    assert d == a + m.Extra() + (Ended(m.name) + Ended(m.comment) + m.Check() + body);
    assert d == b + Ended(m.name) + (Ended(m.comment) + m.Check() + body);
    assert d == c + Ended(m.comment) + (m.Check() + body);
    if m.extra.Some? {
      ExtraSkipped(d, a, m, Ended(m.name) + Ended(m.comment) + m.Check() + body);
    }
    EndedSkipped(d, b, m.name, Ended(m.comment) + m.Check() + body);
    EndedSkipped(d, c, m.comment, m.Check() + body);
  }

  lemma NothingThere(m: Member)
    requires m.Valid()
    ensures m.extra.None? ==> m.Extra() == []
    ensures m.name.None? ==> Ended(m.name) == []
    ensures m.comment.None? ==> Ended(m.comment) == []
    ensures |m.Check()| == if m.check.Some? then 2 else 0
  {
  }

  /** Whatever of the optional fields is there, the data starts right behind the header. */
  lemma HeaderSkipped(m: Member, body: seq<byte>)
    requires m.Valid()
    ensures ReadHeader(m.Written() + body) == Body(|m.Written()|)
  {
    hide Fields;
    FieldsSkipped(m, body);
    var d := m.Written() + body;
    assert d[0] == m.Fixed()[0] && d[1] == m.Fixed()[1] && d[2] == m.Fixed()[2] && d[3] == m.Fixed()[3];
  }

  /** A header that is cut off is found out. */
  lemma HeaderCut(m: Member, n: nat)
    requires m.Valid() && n < |m.Written()|
    ensures ReadHeader(m.Written()[..n]) == if n < 2 then NotGzip else Malformed
  {
    hide Fields;
    var d := m.Written();
    HeaderSkipped(m, []);
    assert d + [] == d;
    var r := ReadHeader(d[..n]);
    if r.Body? {
      HeaderWithin(d, d[..n], r.at);
    }
  }

  /** Other beginnings are not taken for gzip data, and other methods or flags are refused. */
  lemma HeaderRefused(a: byte, b: byte, cm: byte, flags: byte, rest: seq<byte>)
    ensures a != 31 || b != 139 ==> ReadHeader([a, b, cm, flags] + rest) == NotGzip
    ensures a == 31 && b == 139 && (cm != 8 || flags >= 32) ==> ReadHeader([a, b, cm, flags] + rest) == Malformed
  {
    hide Fields;
  }
}
