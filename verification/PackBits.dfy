/** TIFF 6.0 Section 9 run-length coding of a printer raster line.

  An encoding is described by the tokens it spells: literals and repeats. The
  encoder's output is pinned down by `IsPacked` (the tokens are canonical and
  expand to the input) and `PackedIsUnique` shows that there is only one such
  output, so nothing in the contract is left to the loop that computes it. */
module TiffPackBits {
  import opened Bytes
  import opened Wrappers

  const MAX_RUN: nat := 128

  datatype Token = Literal(bytes: seq<byte>) | Repeat(value: byte, count: nat)

  // ---------------------------------------------------------------------------
  // what a token sequence means and how it is written
  // ---------------------------------------------------------------------------

  ghost predicate WellFormed(t: Token) {
    match t
    case Literal(bytes) =>
      1 <= |bytes| <= MAX_RUN && forall i, j :: 0 <= i && j == i + 1 < |bytes| ==> bytes[i] != bytes[j]
    case Repeat(_, count) => 2 <= count <= MAX_RUN
  }

  function Fill(value: byte, count: nat): (s: seq<byte>)
    ensures |s| == count
    ensures forall i :: 0 <= i < count ==> s[i] == value
  {
    seq(count, _ => value)
  }

  ghost function ExpandToken(t: Token): seq<byte> {
    match t
    case Literal(bytes) => bytes
    case Repeat(value, count) => Fill(value, count)
  }

  ghost function Expand(ts: seq<Token>): seq<byte> {
    if ts == [] then [] else ExpandToken(ts[0]) + Expand(ts[1..])
  }

  ghost function Control(t: Token): byte
    requires WellFormed(t)
  {
    match t
    case Literal(bytes) => ByteOf(|bytes| - 1)
    case Repeat(_, count) => ByteOf(257 - count)
  }

  ghost function Payload(t: Token): seq<byte> {
    match t
    case Literal(bytes) => bytes
    case Repeat(value, _) => [value]
  }

  ghost function WireToken(t: Token): seq<byte>
    requires WellFormed(t)
  {
    [Control(t)] + Payload(t)
  }

  ghost function Wire(ts: seq<Token>): seq<byte>
    requires forall i :: 0 <= i < |ts| ==> WellFormed(ts[i])
  {
    if ts == [] then [] else WireToken(ts[0]) + Wire(ts[1..])
  }

  /** May `next`, whose first byte is `first`, follow `t` in a canonical encoding?
    A literal ends only where a run starts or when it is full, and a repeat takes
    the whole run unless it is full. */
  ghost predicate EndsBefore(t: Token, first: byte, nextIsRepeat: bool) {
    match t
    case Literal(bytes) => bytes != [] && bytes[|bytes| - 1] != first && (|bytes| == MAX_RUN || nextIsRepeat)
    case Repeat(value, count) => count == MAX_RUN || value != first
  }

  ghost predicate Joint(t: Token, next: Token) {
    ExpandToken(next) != [] && EndsBefore(t, ExpandToken(next)[0], next.Repeat?)
  }

  ghost predicate Canonical(ts: seq<Token>) {
    && (forall i :: 0 <= i < |ts| ==> WellFormed(ts[i]))
    && (forall i, j :: 0 <= i && j == i + 1 < |ts| ==> Joint(ts[i], ts[j]))
  }

  ghost predicate Spells(ts: seq<Token>, data: seq<byte>, out: seq<byte>) {
    Canonical(ts) && Expand(ts) == data && Wire(ts) == out
  }

  ghost predicate IsPacked(data: seq<byte>, out: seq<byte>) {
    exists ts :: Spells(ts, data, out)
  }

  // ---------------------------------------------------------------------------
  // the encoder
  // ---------------------------------------------------------------------------

  /** The length of the run that starts at `index`; `RunIsMaximal` says what that means. */
  function RunLength(data: seq<byte>, index: nat): (run: nat)
    requires index < |data|
    ensures 1 <= run <= |data| - index
    decreases |data| - index
  {
    if index + 1 < |data| && data[index + 1] == data[index] then 1 + RunLength(data, index + 1) else 1
  }

  /** The run is made of one byte and is as long as it can be. */
  lemma {:induction false} RunIsMaximal(data: seq<byte>, index: nat)
    requires index < |data|
    ensures var end := index + RunLength(data, index);
            && (forall i :: index <= i < end ==> data[i] == data[index])
            && (end < |data| ==> data[end] != data[index])
    decreases |data| - index
  {
    if index + 1 < |data| && data[index + 1] == data[index] {
      RunIsMaximal(data, index + 1);
    }
  }

  method PackBits(data: seq<byte>) returns (out: seq<byte>)
    ensures IsPacked(data, out)
  {
    out := [];
    var index := 0;
    ghost var ts: seq<Token> := [];
    while index < |data|
      invariant 0 <= index <= |data|
      invariant Encoded(ts, data, index, out)
    {
      var run := RunLength(data, index);
      if run >= 2 {
        var take := if run < MAX_RUN then run else MAX_RUN;
        RepeatEnds(data, index, take);
        AfterToken(ts, Repeat(data[index], take), data, index, index + take, out);
        ts := ts + [Repeat(data[index], take)];
        out := out + [ByteOf(257 - take), data[index]];
        index := index + take;
        continue;
      }

      var start := index;
      while index < |data| && index - start < MAX_RUN && RunLength(data, index) < 2
        invariant start <= index <= |data| && index - start <= MAX_RUN
        invariant index == start ==> RunLength(data, start) < 2
        invariant RunFree(data, start, index)
      {
        index := index + 1;
      }
      LiteralEnds(data, start, index);
      AfterToken(ts, Literal(data[start..index]), data, start, index, out);
      ts := ts + [Literal(data[start..index])];
      out := out + ([ByteOf(index - start - 1)] + data[start..index]);
    }
    assert data[..index] == data;
  }

  /** The loop invariant: what has been read is encoded, and the last token ends there. */
  ghost predicate Encoded(ts: seq<Token>, data: seq<byte>, index: nat, out: seq<byte>)
    requires index <= |data|
  {
    && Spells(ts, data[..index], out)
    && (ts != [] && index < |data| ==> EndsBefore(ts[|ts| - 1], data[index], RunLength(data, index) >= 2))
  }

  /** No byte of the stretch starts a run. */
  ghost predicate RunFree(data: seq<byte>, start: nat, end: nat)
    requires end <= |data|
  {
    forall i :: start <= i < end ==> RunLength(data, i) < 2
  }

  /** Is `t` what a canonical encoding makes of the bytes from `index` to `end`? */
  ghost predicate Fits(t: Token, data: seq<byte>, index: nat, end: nat) {
    && index < end <= |data|
    && WellFormed(t)
    && ExpandToken(t) == data[index..end]
    && t.Repeat? == (RunLength(data, index) >= 2)
    && (end < |data| ==> EndsBefore(t, data[end], RunLength(data, end) >= 2))
  }

  lemma AfterToken(ts: seq<Token>, t: Token, data: seq<byte>, index: nat, end: nat, out: seq<byte>)
    requires index <= |data| && Encoded(ts, data, index, out) && Fits(t, data, index, end)
    ensures Encoded(ts + [t], data, end, out + WireToken(t))
  {
    assert ExpandToken(t)[0] == data[index];
    AppendToken(ts, t, data[..index], out);
    assert data[..end] == data[..index] + ExpandToken(t);
  }

  /** The repeat that takes a run, or the first 128 bytes of it. */
  lemma RepeatEnds(data: seq<byte>, index: nat, take: nat)
    requires index < |data| && RunLength(data, index) >= 2
    requires take == if RunLength(data, index) < MAX_RUN then RunLength(data, index) else MAX_RUN
    ensures Fits(Repeat(data[index], take), data, index, index + take)
    ensures WireToken(Repeat(data[index], take)) == [ByteOf(257 - take), data[index]]
  {
    RunIsMaximal(data, index);
    assert Fill(data[index], take) == data[index..index + take];
  }

  /** The literal cut out of a run-free stretch. */
  lemma LiteralEnds(data: seq<byte>, start: nat, end: nat)
    requires start < end <= |data| && end - start <= MAX_RUN && RunFree(data, start, end)
    requires end < |data| && end - start < MAX_RUN ==> RunLength(data, end) >= 2
    ensures Fits(Literal(data[start..end]), data, start, end)
    ensures WireToken(Literal(data[start..end])) == [ByteOf(end - start - 1)] + data[start..end]
  {
    var bytes := data[start..end];
    forall i, j | 0 <= i && j == i + 1 < |bytes| ensures bytes[i] != bytes[j] {
      assert RunLength(data, start + i) < 2;
      assert data[start + i] == bytes[i] && data[start + j] == bytes[j];
    }
    assert RunLength(data, start) < 2 && RunLength(data, end - 1) < 2;
  }

  lemma {:induction false} ExpandAppend(ts: seq<Token>, t: Token)
    ensures Expand(ts + [t]) == Expand(ts) + ExpandToken(t)
  {
    if ts == [] {
      assert Expand([t]) == ExpandToken(t) + Expand([]);
    } else {
      assert (ts + [t])[1..] == ts[1..] + [t];
      ExpandAppend(ts[1..], t);
    }
  }

  lemma {:induction false} WireAppend(ts: seq<Token>, t: Token)
    requires WellFormed(t) && forall i :: 0 <= i < |ts| ==> WellFormed(ts[i])
    ensures Wire(ts + [t]) == Wire(ts) + WireToken(t)
  {
    if ts == [] {
      assert Wire([t]) == WireToken(t) + Wire([]);
    } else {
      assert (ts + [t])[1..] == ts[1..] + [t];
      WireAppend(ts[1..], t);
    }
  }

  lemma CanonicalAppend(ts: seq<Token>, t: Token)
    requires Canonical(ts) && WellFormed(t)
    requires ts != [] ==> EndsBefore(ts[|ts| - 1], ExpandToken(t)[0], t.Repeat?)
    ensures Canonical(ts + [t])
  {
    var all := ts + [t];
    forall i, j | 0 <= i && j == i + 1 < |all| ensures Joint(all[i], all[j]) {
      if j < |ts| {
        assert Joint(ts[i], ts[j]);
      }
    }
  }

  lemma AppendToken(ts: seq<Token>, t: Token, data: seq<byte>, out: seq<byte>)
    requires Spells(ts, data, out) && WellFormed(t)
    requires ts != [] ==> EndsBefore(ts[|ts| - 1], ExpandToken(t)[0], t.Repeat?)
    ensures Spells(ts + [t], data + ExpandToken(t), out + WireToken(t))
  {
    CanonicalAppend(ts, t);
    ExpandAppend(ts, t);
    WireAppend(ts, t);
  }

  // ---------------------------------------------------------------------------
  // the decoder of Section 9, and what the encoding guarantees
  // ---------------------------------------------------------------------------

  /** Section 9's expansion loop; `None` where it would read past the end. */
  function UnpackBits(data: seq<byte>): Option<seq<byte>> {
    if data == [] then Some([])
    else
      var control := NatOf(data[0]);
      if control <= 127 then
        if |data| < control + 2 then None
        else
          match UnpackBits(data[control + 2..])
          case None => None
          case Some(rest) => Some(data[1..control + 2] + rest)
      else if control == 128 then UnpackBits(data[1..])
      else if |data| < 2 then None
      else
        NatOfIsValue(data[0]);
        match UnpackBits(data[2..])
        case None => None
        case Some(rest) => Some(Fill(data[1], 257 - control) + rest)
  }

  /** The control bytes the expansion loop meets, in order. */
  ghost function Controls(data: seq<byte>): seq<byte> {
    if data == [] then []
    else
      var control := NatOf(data[0]);
      var skip := if control <= 127 then control + 2 else if control == 128 then 1 else 2;
      [data[0]] + if skip <= |data| then Controls(data[skip..]) else []
  }

  lemma TokenUnpacks(t: Token, rest: seq<byte>)
    requires WellFormed(t) && UnpackBits(rest).Some?
    ensures UnpackBits(WireToken(t) + rest) == Some(ExpandToken(t) + UnpackBits(rest).value)
    ensures Controls(WireToken(t) + rest) == [Control(t)] + Controls(rest)
    ensures NatOf(Control(t)) != 128
  {
    var head := WireToken(t);
    assert (head + rest)[|head|..] == rest;
    match t {
      case Literal(bytes) =>
        NatOfByteOf(|bytes| - 1);
        assert (head + rest)[1..|head|] == bytes;
      case Repeat(value, count) =>
        NatOfByteOf(257 - count);
    }
  }

  lemma {:induction false} WireUnpacks(ts: seq<Token>)
    requires forall i :: 0 <= i < |ts| ==> WellFormed(ts[i])
    ensures UnpackBits(Wire(ts)) == Some(Expand(ts))
    ensures forall c :: c in Controls(Wire(ts)) ==> NatOf(c) != 128
  {
    if ts != [] {
      WireUnpacks(ts[1..]);
      TokenUnpacks(ts[0], Wire(ts[1..]));
    }
  }

  /** Unpacking gives the input back, and the no-op control byte never occurs. */
  lemma RoundTrip(data: seq<byte>, out: seq<byte>)
    requires IsPacked(data, out)
    ensures UnpackBits(out) == Some(data)
    ensures forall c :: c in Controls(out) ==> NatOf(c) != 128
  {
    var ts :| Spells(ts, data, out);
    WireUnpacks(ts);
  }

  lemma {:induction false} WireSize(ts: seq<Token>)
    requires Canonical(ts)
    ensures 3 * |Wire(ts)| <= 4 * |Expand(ts)| + 2
    ensures ts != [] && ts[0].Repeat? ==> 3 * |Wire(ts)| <= 4 * |Expand(ts)|
  {
    if |ts| > 0 {
      var rest := ts[1..];
      assert Canonical(rest) by {
        forall i, j | 0 <= i && j == i + 1 < |rest| ensures Joint(rest[i], rest[j]) {
          assert Joint(ts[i + 1], ts[j + 1]);
        }
      }
      WireSize(rest);
      if |rest| > 0 {
        assert Joint(ts[0], ts[1]);
      }
    }
  }

  /** Compression never costs more than a third, so the length of a packed
    90-byte line always fits the single length byte in front of it. */
  lemma SizeBound(data: seq<byte>, out: seq<byte>)
    requires IsPacked(data, out)
    ensures 3 * |out| <= 4 * |data| + 2
    ensures |data| == 90 ==> |out| <= 120
  {
    var ts :| Spells(ts, data, out);
    WireSize(ts);
  }

  // ---------------------------------------------------------------------------
  // there is only one canonical encoding
  // ---------------------------------------------------------------------------

  lemma CanonicalTail(ts: seq<Token>)
    requires Canonical(ts) && ts != []
    ensures Canonical(ts[1..])
    ensures Expand(ts) == ExpandToken(ts[0]) + Expand(ts[1..])
    ensures |ts| > 1 ==> EndsBefore(ts[0], Expand(ts[1..])[0], ts[1].Repeat?)
    ensures |ts| > 1 <==> Expand(ts[1..]) != []
  {
    var rest := ts[1..];
    forall i, j | 0 <= i && j == i + 1 < |rest| ensures Joint(rest[i], rest[j]) {
      assert Joint(ts[i + 1], ts[j + 1]);
    }
    if |ts| > 1 {
      assert Joint(ts[0], ts[1]);
      assert Expand(rest) == ExpandToken(rest[0]) + Expand(rest[1..]);
    }
  }

  /** The first token of a canonical encoding starts a run exactly when the data does. */
  lemma FirstTokenKind(ts: seq<Token>)
    requires Canonical(ts) && ts != []
    ensures Expand(ts) != []
    ensures ts[0].Repeat? <==> RunLength(Expand(ts), 0) >= 2
    ensures ts[0].Repeat? ==> ts[0].value == Expand(ts)[0]
    ensures ts[0].Repeat? ==>
              ts[0].count == if RunLength(Expand(ts), 0) < MAX_RUN then RunLength(Expand(ts), 0) else MAX_RUN
  {
    CanonicalTail(ts);
    var data, head := Expand(ts), ExpandToken(ts[0]);
    assert data == head + Expand(ts[1..]) && head != [];
    RunIsMaximal(data, 0);
    var run := RunLength(data, 0);
    if |ts| > 1 {
      assert data[|head|] == Expand(ts[1..])[0];
    }
    match ts[0] {
      case Literal(bytes) =>
        assert bytes[0] == data[0];
        assert |bytes| > 1 ==> data[1] == bytes[1] && bytes[0] != bytes[1];
      case Repeat(value, count) =>
        assert data[0] == value && data[1] == value;
        assert run > count ==> data[count] == value;
    }
  }

  /** A literal cannot stop short of another canonical encoding's literal: it would
    have to stop at a run, and the longer literal would contain that run. */
  lemma LiteralsAgree(a: seq<Token>, b: seq<Token>)
    requires Canonical(a) && Canonical(b) && a != [] && b != [] && Expand(a) == Expand(b)
    requires a[0].Literal? && b[0].Literal?
    ensures |a[0].bytes| >= |b[0].bytes|
  {
    CanonicalTail(a);
    CanonicalTail(b);
    var k := |a[0].bytes|;
    if k < |b[0].bytes| {
      LiteralHasNoRun(b, k);
      assert Expand(a[1..]) == Expand(a)[k..];
      FirstTokenKind(a[1..]);
    }
  }

  /** Inside a literal of a canonical encoding no byte starts a run. */
  lemma LiteralHasNoRun(ts: seq<Token>, k: nat)
    requires Canonical(ts) && ts != [] && ts[0].Literal? && k < |ts[0].bytes|
    ensures k < |Expand(ts)| && RunLength(Expand(ts)[k..], 0) < 2
  {
    CanonicalTail(ts);
    var data, bytes, next := Expand(ts), ts[0].bytes, k + 1;
    assert data == bytes + Expand(ts[1..]);
    assert next < |data| ==> data[k..][1] == data[next];
    if next < |bytes| {
      assert bytes[k] != bytes[next];
    }
  }

  lemma {:induction false} CanonicalUnique(a: seq<Token>, b: seq<Token>)
    requires Canonical(a) && Canonical(b) && Expand(a) == Expand(b)
    ensures a == b
  {
    if a != [] && b != [] {
      CanonicalTail(a);
      CanonicalTail(b);
      FirstTokenKind(a);
      FirstTokenKind(b);
      if a[0].Literal? {
        LiteralsAgree(a, b);
        LiteralsAgree(b, a);
        assert a[0].bytes == Expand(a)[..|a[0].bytes|];
        assert b[0].bytes == Expand(b)[..|b[0].bytes|];
      }
      assert a[0] == b[0];
      var k := |ExpandToken(a[0])|;
      assert Expand(a[1..]) == Expand(a)[k..] == Expand(b)[k..] == Expand(b[1..]);
      CanonicalUnique(a[1..], b[1..]);
      assert a == [a[0]] + a[1..] && b == [b[0]] + b[1..];
    } else if a != [] {
      FirstTokenKind(a);
    } else if b != [] {
      FirstTokenKind(b);
    }
  }

  /** The encoder's contract leaves no freedom: its output is a function of the data. */
  lemma PackedIsUnique(data: seq<byte>, first: seq<byte>, second: seq<byte>)
    requires IsPacked(data, first) && IsPacked(data, second)
    ensures first == second
  {
    var a :| Spells(a, data, first);
    var b :| Spells(b, data, second);
    CanonicalUnique(a, b);
  }
}
