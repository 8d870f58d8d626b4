/** The canonical writer: length-prefixed, fixed-width fields hashed once. */
module CanonicalWriter {
  import opened Basics

  const MAX_UINT32 := 0xFFFF_FFFF
  const TWO_64 := 0x1_0000_0000_0000_0000
  const TWO_63 := 0x8000_0000_0000_0000

  type byte = x: int | 0 <= x < 256
  type uint32 = x: int | 0 <= x <= MAX_UINT32
  type uint64 = x: int | 0 <= x < TWO_64
  type int64 = x: int | -TWO_63 <= x < TWO_63

  datatype Field = Text(bytes: seq<byte>) | U8(u8: byte) | U32(u32: uint32) | U64(u64: uint64) | I64(i64: int64)

  datatype Kind = KText | KU8 | KU32 | KU64 | KI64

  function KindOf(f: Field): Kind {
    match f case Text(_) => KText case U8(_) => KU8 case U32(_) => KU32 case U64(_) => KU64 case I64(_) => KI64
  }

  predicate Writable(f: Field) { f.Text? ==> |f.bytes| <= MAX_UINT32 }

  function Pow256(n: nat): (p: nat)
    ensures p > 0
  {
    if n == 0 then 1 else 256 * Pow256(n - 1)
  }

  /** The n low-order bytes of v, the most significant first. */
  function BigEndian(v: nat, n: nat): (bs: seq<byte>)
    ensures |bs| == n
  {
    if n == 0 then [] else BigEndian(v / 256, n - 1) + [v % 256]
  }

  function TwosComplement(v: int64): uint64 { if v < 0 then v + TWO_64 else v }

  function Encoded(f: Field): seq<byte>
    requires Writable(f)
  {
    match f
    case Text(bytes) => BigEndian(|bytes|, 4) + bytes
    case U8(v) => [v]
    case U32(v) => BigEndian(v, 4)
    case U64(v) => BigEndian(v, 8)
    case I64(v) => BigEndian(TwosComplement(v), 8)
  }

  predicate AllWritable(fs: seq<Field>) { forall i :: 0 <= i < |fs| ==> Writable(fs[i]) }

  function Stream(fs: seq<Field>): seq<byte>
    requires AllWritable(fs)
  {
    if fs == [] then [] else Stream(fs[..|fs| - 1]) + Encoded(fs[|fs| - 1])
  }

  // -------------------------------------------------------------- injectivity

  function Value(bs: seq<byte>): nat { if bs == [] then 0 else 256 * Value(bs[..|bs| - 1]) + bs[|bs| - 1] }

  lemma {:induction false} BigEndianReadBack(v: nat, n: nat)
    requires v < Pow256(n)
    ensures Value(BigEndian(v, n)) == v
  {
    if n > 0 {
      BigEndianReadBack(v / 256, n - 1);
      assert BigEndian(v, n)[..n - 1] == BigEndian(v / 256, n - 1);
    }
  }

  lemma Widths()
    ensures Pow256(4) == MAX_UINT32 + 1 && Pow256(8) == TWO_64
  {
    assert Pow256(1) == 256 && Pow256(2) == 0x1_0000 && Pow256(3) == 0x100_0000;
    assert Pow256(5) == 256 * Pow256(4) && Pow256(6) == 256 * Pow256(5) && Pow256(7) == 256 * Pow256(6);
  }

  /** Fields of one kind are self-delimiting: equal streams that begin with them
      have equal fields, and equal rests. */
  lemma FieldSplits(f: Field, g: Field, s: seq<byte>, t: seq<byte>)
    requires Writable(f) && Writable(g) && KindOf(f) == KindOf(g) && Encoded(f) + s == Encoded(g) + t
    ensures f == g && s == t
  {
    Widths();
    match f
    case Text(bytes) =>
      assert (Encoded(f) + s)[..4] == BigEndian(|f.bytes|, 4) && (Encoded(g) + t)[..4] == BigEndian(|g.bytes|, 4);
      BigEndianReadBack(|f.bytes|, 4);
      BigEndianReadBack(|g.bytes|, 4);
      assert |Encoded(f)| == |Encoded(g)|;
      SameLengthSplits(Encoded(f), s, Encoded(g), t);
      assert Encoded(f)[4..] == f.bytes && Encoded(g)[4..] == g.bytes;
    case U8(_) =>
      SameLengthSplits(Encoded(f), s, Encoded(g), t);
      assert Encoded(f)[0] == f.u8 && Encoded(g)[0] == g.u8;
    case U32(v) =>
      SameLengthSplits(Encoded(f), s, Encoded(g), t);
      BigEndianReadBack(v, 4);
      BigEndianReadBack(g.u32, 4);
    case U64(v) =>
      SameLengthSplits(Encoded(f), s, Encoded(g), t);
      BigEndianReadBack(v, 8);
      BigEndianReadBack(g.u64, 8);
    case I64(v) =>
      SameLengthSplits(Encoded(f), s, Encoded(g), t);
      BigEndianReadBack(TwosComplement(v), 8);
      BigEndianReadBack(TwosComplement(g.i64), 8);
  }

  lemma SameLengthSplits(a: seq<byte>, s: seq<byte>, b: seq<byte>, t: seq<byte>)
    requires |a| == |b| && a + s == b + t
    ensures a == b && s == t
  {
    assert (a + s)[..|a|] == a && (b + t)[..|b|] == b;
    assert (a + s)[|a|..] == s && (b + t)[|b|..] == t;
  }

  lemma {:induction false} StreamHead(fs: seq<Field>)
    requires AllWritable(fs) && fs != []
    ensures AllWritable(fs[1..]) && Stream(fs) == Encoded(fs[0]) + Stream(fs[1..])
  {
    if |fs| > 1 {
      var init := fs[..|fs| - 1];
      StreamHead(init);
      assert init[1..] == fs[1..][..|fs[1..]| - 1];
    } else {
      assert fs[..0] == [] && fs[1..] == [];
    }
  }

  lemma HeadSplits(fs: seq<Field>, gs: seq<Field>)
    requires fs != [] && gs != [] && AllWritable(fs) && AllWritable(gs) && KindOf(fs[0]) == KindOf(gs[0])
      && Stream(fs) == Stream(gs)
    ensures fs[0] == gs[0] && AllWritable(fs[1..]) && AllWritable(gs[1..]) && Stream(fs[1..]) == Stream(gs[1..])
  {
    StreamHead(fs);
    StreamHead(gs);
    FieldSplits(fs[0], gs[0], Stream(fs[1..]), Stream(gs[1..]));
  }

  predicate SameKinds(fs: seq<Field>, gs: seq<Field>) {
    |fs| == |gs| && forall i :: 0 <= i < |fs| ==> KindOf(fs[i]) == KindOf(gs[i])
  }

  /** Two sequences of writes with the same kinds of field and the same byte stream
      are equal field by field. */
  lemma {:induction false} StreamInjective(fs: seq<Field>, gs: seq<Field>)
    requires AllWritable(fs) && AllWritable(gs) && SameKinds(fs, gs) && Stream(fs) == Stream(gs)
    ensures fs == gs
  {
    if fs != [] {
      HeadSplits(fs, gs);
      assert SameKinds(fs[1..], gs[1..]);
      StreamInjective(fs[1..], gs[1..]);
      assert fs == [fs[0]] + fs[1..] && gs == [gs[0]] + gs[1..];
    }
  }

  /** The kinds matter: a text and the two fixed-width fields it looks like write the
      same bytes. */
  lemma KindsMatter()
    ensures Stream([Text([7])]) == Stream([U32(1), U8(7)])
  {
    var a, b := [Text([7])], [U32(1), U8(7)];
    assert a[..0] == [] && b[..1] == [U32(1)] && [U32(1)][..0] == [];
    assert Stream(a) == BigEndian(1, 4) + [7];
    assert Stream([U32(1)]) == Stream([]) + BigEndian(1, 4);
  }

  // ------------------------------------------------------------------- writer

  datatype Call = Write(field: Field) | HexDigest

  /** The writer: what was hashed, whether it failed, whether it was finalised. */
  datatype Writer = Writer(hashed: seq<byte>, failed: bool, finalized: bool)

  function Called(w: Writer, call: Call): (Writer, Result<seq<byte>>) {
    match call
    case HexDigest =>
      if w.finalized || w.failed then (w.(finalized := true), Err(InvalidState))
        else (w.(finalized := true), Ok(w.hashed))
    case Write(f) =>
      if w.finalized || w.failed || !Writable(f) then (w.(failed := true), Ok([]))
        else (w.(hashed := w.hashed + Encoded(f)), Ok([]))
  }

  function AfterCalls(calls: seq<Call>): Writer {
    if calls == [] then Writer([], false, false) else Called(AfterCalls(calls[..|calls| - 1]), calls[|calls| - 1]).0
  }

  function Digest(calls: seq<Call>): Result<seq<byte>> { Called(AfterCalls(calls), HexDigest).1 }

  predicate OnlyWrites(calls: seq<Call>) {
    forall i :: 0 <= i < |calls| ==> calls[i].Write? && Writable(calls[i].field)
  }

  function Fields(calls: seq<Call>): seq<Field>
    requires OnlyWrites(calls)
    ensures AllWritable(Fields(calls))
  {
    seq(|calls|, i requires 0 <= i < |calls| => calls[i].field)
  }

  /** A digest is given exactly to a history of writes only, none of them too long,
      and it is then the digest of the stream of all fields written. */
  lemma {:induction false} DigestIff(calls: seq<Call>)
    ensures Digest(calls).Ok? <==> OnlyWrites(calls)
    ensures OnlyWrites(calls) ==> Digest(calls).value == Stream(Fields(calls))
  {
    if calls != [] {
      var init, last := calls[..|calls| - 1], calls[|calls| - 1];
      DigestIff(init);
      OnlyWritesSnoc(init, last);
      assert calls == init + [last];
      if OnlyWrites(calls) {
        FieldsSnoc(calls);
      }
    }
  }

  lemma OnlyWritesSnoc(init: seq<Call>, last: Call)
    ensures OnlyWrites(init + [last]) <==> OnlyWrites(init) && last.Write? && Writable(last.field)
  {
    var calls := init + [last];
    assert forall i :: 0 <= i < |init| ==> calls[i] == init[i];
    assert calls[|init|] == last;
  }

  lemma FieldsSnoc(calls: seq<Call>)
    requires OnlyWrites(calls) && calls != []
    ensures OnlyWrites(calls[..|calls| - 1])
    ensures Stream(Fields(calls)) == Stream(Fields(calls[..|calls| - 1])) + Encoded(calls[|calls| - 1].field)
  {
    assert Fields(calls)[..|calls| - 1] == Fields(calls[..|calls| - 1]);
  }

  /** Once a text was too long or the writer was finalised, no later call yields a
      digest. */
  lemma NoDigestAfter(calls: seq<Call>, i: nat, later: seq<Call>)
    requires i < |calls| && (calls[i].HexDigest? || (calls[i].field.Text? && |calls[i].field.bytes| > MAX_UINT32))
    ensures Digest(calls + later).Err?
  {
    DigestIff(calls + later);
    assert (calls + later)[i] == calls[i];
  }

  /** Equal digests of histories with the same kinds of field mean equal fields. */
  lemma DigestBindsFields(a: seq<Call>, b: seq<Call>)
    requires OnlyWrites(a) && OnlyWrites(b) && SameKinds(Fields(a), Fields(b)) && Digest(a) == Digest(b)
    ensures a == b
  {
    DigestIff(a);
    DigestIff(b);
    StreamInjective(Fields(a), Fields(b));
    assert forall i :: 0 <= i < |a| ==> a[i] == Write(Fields(a)[i]);
    assert forall i :: 0 <= i < |b| ==> b[i] == Write(Fields(b)[i]);
  }

  /** The writer as an object changed call by call. A digest stands for the bytes it
      is the hash of. */
  class CanonicalSHA256 {
    var hashed: seq<byte>
    var failed: bool
    var finalized: bool

    ghost function State(): Writer reads this { Writer(hashed, failed, finalized) }

    constructor ()
      ensures State() == AfterCalls([])
    {
      hashed, failed, finalized := [], false, false;
    }

    method Ready() returns (ok: bool)
      modifies this`failed
      ensures ok <==> !finalized && !old(failed)
      ensures failed == (old(failed) || finalized)
    {
      if finalized {
        failed := true;
        return false;
      }
      return !failed;
    }

    method Append(value: seq<byte>)
      modifies this`hashed
      ensures hashed == if failed then old(hashed) else old(hashed) + value
    {
      if failed { return; }
      hashed := hashed + value;
    }

    method String(value: seq<byte>)
      modifies this
      ensures State() == Called(old(State()), Write(Text(value))).0
    {
      var ok := Ready();
      if !ok { return; }
      if |value| > MAX_UINT32 {
        failed := true;
        return;
      }
      Uint32(|value|);
      Append(value);
      assert hashed == old(hashed) + (BigEndian(|value|, 4) + value);
    }

    method Uint8(value: byte)
      modifies this
      ensures State() == Called(old(State()), Write(U8(value))).0
    {
      var ok := Ready();
      if !ok { return; }
      Append([value]);
    }

    method Uint32(value: uint32)
      modifies this
      ensures State() == Called(old(State()), Write(U32(value))).0
    {
      var ok := Ready();
      if !ok { return; }
      Append(BigEndian(value, 4));
    }

    method Uint64(value: uint64)
      modifies this
      ensures State() == Called(old(State()), Write(U64(value))).0
    {
      var ok := Ready();
      if !ok { return; }
      Append(BigEndian(value, 8));
    }

    method Int64(value: int64)
      modifies this
      ensures State() == Called(old(State()), Write(I64(value))).0
    {
      Uint64(if value < 0 then value + TWO_64 else value);
    }

    method HexDigest() returns (r: Result<seq<byte>>)
      modifies this
      ensures State() == Called(old(State()), Call.HexDigest).0 && r == Called(old(State()), Call.HexDigest).1
    {
      if finalized { return Err(InvalidState); }
      finalized := true;
      if failed { return Err(InvalidState); }
      return Ok(hashed);
    }
  }
}
