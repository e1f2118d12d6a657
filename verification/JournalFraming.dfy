/** Big-endian integers, as both the journal frames and the fan-out hash inputs write them. */
module Bytes {

  type Byte = x: int | 0 <= x < 256

  /** `width` bytes, most significant first. */
  function BigEndian(n: nat, width: nat): (b: seq<Byte>)
    ensures |b| == width
  {
    if width == 0 then [] else BigEndian(n / 256, width - 1) + [n % 256]
  }

  function FromBigEndian(b: seq<Byte>): nat {
    if b == [] then 0 else FromBigEndian(b[..|b| - 1]) * 256 + b[|b| - 1]
  }

  function Power256(width: nat): (p: nat)
    ensures p > 0
  {
    if width == 0 then 1 else 256 * Power256(width - 1)
  }

  /** Reading back what was written, for every value that fits. */
  lemma {:induction false} BigEndianRoundTrip(n: nat, width: nat)
    requires n < Power256(width)
    ensures FromBigEndian(BigEndian(n, width)) == n
  {
    if width > 0 {
      BigEndianRoundTrip(n / 256, width - 1);
      assert BigEndian(n, width)[..width - 1] == BigEndian(n / 256, width - 1);
    }
  }

  /** Writing back what was read. */
  lemma {:induction false} BigEndianCanonical(b: seq<Byte>)
    ensures FromBigEndian(b) < Power256(|b|)
    ensures BigEndian(FromBigEndian(b), |b|) == b
  {
    if b != [] {
      BigEndianCanonical(b[..|b| - 1]);
    }
  }

  /** Byte `i` from the left is the digit of that weight in base 256. */
  lemma {:induction false} BigEndianDigit(n: nat, width: nat, i: nat)
    requires i < width
    ensures BigEndian(n, width)[i] == n / Power256(width - 1 - i) % 256
    decreases width
  {
    if i < width - 1 {
      BigEndianDigit(n / 256, width - 1, i);
      DivideTwice(n, Power256(width - 2 - i));
    }
  }

  lemma DivideTwice(n: nat, p: nat)
    requires p > 0
    ensures n / 256 / p == n / (256 * p)
  {
    var half := n / 256;
    var q, low := half / p, half % p;
    DivisionLaw(half, p);
    assert 256 * half == 256 * (p * q) + 256 * low;
    Regroup(p, q);
    QuotientIs(n, 256 * p, q, 256 * low + n % 256);
  }

  lemma DivisionLaw(n: nat, m: nat)
    requires m > 0
    ensures n == m * (n / m) + n % m && 0 <= n % m < m
  {
  }

  lemma Regroup(p: nat, q: nat)
    ensures 256 * (p * q) == (256 * p) * q
  {
  }

  lemma QuotientIs(n: nat, m: nat, q: nat, rest: nat)
    requires n == m * q + rest && rest < m
    ensures n / m == q
  {
    DivisionLaw(n, m);
    var gap := n / m - q;
    assert m * gap == m * (n / m) - m * q;
    MultipleInRange(m, gap);
  }

  /** The only multiple of `m` strictly between `-m` and `m` is zero. */
  lemma MultipleInRange(m: int, d: int)
    requires -m < m * d < m
    ensures d == 0
  {
    MultipleIsLarge(m, d);
  }

  lemma MultipleIsLarge(m: int, d: int)
    requires m > 0
    ensures d >= 1 ==> m * d >= m
    ensures d <= -1 ==> m * d <= -m
  {
  }

  lemma BigEndianInjective(m: nat, n: nat, width: nat)
    requires m < Power256(width) && n < Power256(width)
    requires BigEndian(m, width) == BigEndian(n, width)
    ensures m == n
  {
    BigEndianRoundTrip(m, width);
    BigEndianRoundTrip(n, width);
  }

  lemma Power256Values()
    ensures Power256(4) == 0x1_0000_0000 && Power256(8) == 0x1_0000_0000_0000_0000
  {
    assert Power256(1) == 256 && Power256(2) == 65536 && Power256(3) == 16777216 && Power256(4) == 0x1_0000_0000;
    assert Power256(5) == 0x100_0000_0000 && Power256(6) == 0x1_0000_0000_0000 && Power256(7) == 0x100_0000_0000_0000;
  }

  /** What stands at `from` when the rest of the bytes begins with `part`. */
  lemma PartAt(b: seq<Byte>, from: nat, part: seq<Byte>, rest: seq<Byte>)
    requires from <= |b| && b[from..] == part + rest
    ensures from + |part| <= |b| && b[from..from + |part|] == part && b[from + |part|..] == rest
  {
    assert b[from..from + |part|] == b[from..][..|part|] && b[from + |part|..] == b[from..][|part|..];
  }

  /** Equal concatenations whose first parts have equal length agree part by part. */
  lemma SplitEqual<T>(a: seq<T>, x: seq<T>, b: seq<T>, y: seq<T>)
    requires a + x == b + y && |a| == |b|
    ensures a == b && x == y
  {
    assert a == (a + x)[..|a|] && b == (b + y)[..|b|];
    assert x == (a + x)[|a|..] && y == (b + y)[|b|..];
  }
}

/** The framed journal file: magic, then length-prefixed payloads. */
module JournalFraming {
  import opened Wrappers
  import opened Bytes

  const MAGIC: seq<Byte> :=
    ['F' as int, 'C' as int, 'N' as int, 'E' as int, 'T' as int, 'J' as int, '0' as int, '1' as int]
  const MAX_FRAME_LEN := 65536
  const MAX_FRAMES := 4096

  type Payload = seq<Byte>

  function Frame(payload: Payload): seq<Byte> {
    BigEndian(|payload|, 4) + payload
  }

  function Frames(payloads: seq<Payload>): seq<Byte> {
    if payloads == [] then [] else Frame(payloads[0]) + Frames(payloads[1..])
  }

  function EncodeJournal(payloads: seq<Payload>): seq<Byte> {
    MAGIC + Frames(payloads)
  }

  predicate PayloadOk(payload: Payload) {
    1 <= |payload| <= MAX_FRAME_LEN
  }

  predicate Bounded(payloads: seq<Payload>) {
    |payloads| <= MAX_FRAMES && forall i :: 0 <= i < |payloads| ==> PayloadOk(payloads[i])
  }

  /** The files the format admits: the empty file, and the encoding of a bounded list. */
  predicate IsJournal(bytes: seq<Byte>, payloads: seq<Payload>) {
    Bounded(payloads) && ((bytes == [] && payloads == []) || bytes == EncodeJournal(payloads))
  }

  lemma {:induction false} FramesAppend(payloads: seq<Payload>, last: Payload)
    ensures Frames(payloads + [last]) == Frames(payloads) + Frame(last)
  {
    if payloads == [] {
      assert payloads + [last] == [last];
      assert Frames([last]) == Frame(last) + Frames([]);
    } else {
      FramesAppend(payloads[1..], last);
      assert (payloads + [last])[1..] == payloads[1..] + [last];
    }
  }

  lemma FrameHeads(p: Payload, x: seq<Byte>, q: Payload, y: seq<Byte>)
    requires PayloadOk(p) && PayloadOk(q)
    requires Frame(p) + x == Frame(q) + y
    ensures p == q && x == y
  {
    Power256Values();
    assert Frame(p) + x == BigEndian(|p|, 4) + (p + x);
    assert Frame(q) + y == BigEndian(|q|, 4) + (q + y);
    SplitEqual(BigEndian(|p|, 4), p + x, BigEndian(|q|, 4), q + y);
    BigEndianInjective(|p|, |q|, 4);
    SplitEqual(p, x, q, y);
  }

  /** Unique readability: frames at the front of a stream of frames are its first payloads. */
  lemma {:induction false} FramesPrefix(done: seq<Payload>, rest: seq<Byte>, payloads: seq<Payload>)
    requires forall i :: 0 <= i < |done| ==> PayloadOk(done[i])
    requires forall i :: 0 <= i < |payloads| ==> PayloadOk(payloads[i])
    requires Frames(done) + rest == Frames(payloads)
    ensures done <= payloads && rest == Frames(payloads[|done|..])
  {
    if done == [] {
      assert Frames(done) + rest == rest && payloads[0..] == payloads;
    } else {
      assert |Frames(done)| > 0;
      assert payloads != [];
      assert Frames(done) + rest == Frame(done[0]) + (Frames(done[1..]) + rest);
      FrameHeads(done[0], Frames(done[1..]) + rest, payloads[0], Frames(payloads[1..]));
      FramesPrefix(done[1..], rest, payloads[1..]);
      assert done == [done[0]] + done[1..] && payloads == [payloads[0]] + payloads[1..];
      assert payloads[1..][|done[1..]|..] == payloads[|done|..];
    }
  }

  /** A file decodes to at most one list of payloads. */
  lemma JournalUnique(bytes: seq<Byte>, ps: seq<Payload>, qs: seq<Payload>)
    requires IsJournal(bytes, ps) && IsJournal(bytes, qs)
    ensures ps == qs
  {
    if bytes != [] {
      SplitEqual(MAGIC, Frames(ps), MAGIC, Frames(qs));
      assert Frames(ps) + [] == Frames(qs) && Frames(qs) + [] == Frames(ps);
      FramesPrefix(ps, [], qs);
      FramesPrefix(qs, [], ps);
    }
  }

  lemma {:induction false} FramesConcat(ps: seq<Payload>, qs: seq<Payload>)
    ensures Frames(ps + qs) == Frames(ps) + Frames(qs)
  {
    if ps == [] {
      assert ps + qs == qs;
    } else {
      FramesConcat(ps[1..], qs);
      assert (ps + qs)[1..] == ps[1..] + qs;
    }
  }

  /**
   * A truncated journal is accepted exactly when it is empty or cut at a frame boundary,
   * and then decodes to the frames before the cut.
   */
  lemma TruncationIsDetected(payloads: seq<Payload>, k: nat, kept: seq<Payload>)
    requires Bounded(payloads) && k < |EncodeJournal(payloads)|
    ensures IsJournal(EncodeJournal(payloads)[..k], kept) <==>
            (k == 0 && kept == []) || (kept <= payloads && k == |EncodeJournal(kept)|)
  {
    var whole := EncodeJournal(payloads);
    var cut := whole[..k];
    if IsJournal(cut, kept) && k != 0 {
      assert whole == cut + whole[k..];
      assert MAGIC + (Frames(kept) + whole[k..]) == MAGIC + Frames(payloads);
      SplitEqual(MAGIC, Frames(kept) + whole[k..], MAGIC, Frames(payloads));
      FramesPrefix(kept, whole[k..], payloads);
    }
    if kept <= payloads && k == |EncodeJournal(kept)| {
      var tail := payloads[|kept|..];
      assert payloads == kept + tail;
      FramesConcat(kept, tail);
      assert whole == EncodeJournal(kept) + Frames(tail);
      assert cut == EncodeJournal(kept);
    }
  }

  ghost predicate Parsed<T(!new)>(parse: Payload -> Option<T>, payloads: seq<Payload>, values: seq<T>) {
    |payloads| == |values| && forall i :: 0 <= i < |payloads| ==> parse(payloads[i]) == Some(values[i])
  }

  ghost predicate Rejected<T(!new)>(bytes: seq<Byte>, parse: Payload -> Option<T>) {
    forall payloads :: IsJournal(bytes, payloads) ==> exists i :: 0 <= i < |payloads| && parse(payloads[i]).None?
  }

  /** The frame at `pos`, if its header and body are complete and its length is within bounds. */
  function FrameAt(bytes: seq<Byte>, pos: nat): (frame: Option<Payload>)
    requires pos <= |bytes|
    ensures frame.Some? ==> PayloadOk(frame.value) && pos + 4 + |frame.value| <= |bytes|
  {
    if |bytes| - pos < 4 then None else
    var len := FromBigEndian(bytes[pos..pos + 4]);
    if len == 0 || len > MAX_FRAME_LEN then None else
    if |bytes| - (pos + 4) < len then None else
    Some(bytes[pos + 4..pos + 4 + len])
  }

  /** Any reading of the file continues with the frame at `pos`. */
  lemma ReadingContinues(bytes: seq<Byte>, done: seq<Payload>, pos: nat, payloads: seq<Payload>)
    requires Bounded(done) && pos < |bytes| && bytes[..pos] == EncodeJournal(done) && IsJournal(bytes, payloads)
    ensures |done| < |payloads| && FrameAt(bytes, pos) == Some(payloads[|done|])
  {
    var rest := bytes[pos..];
    assert bytes == bytes[..pos] + rest;
    assert MAGIC + (Frames(done) + rest) == MAGIC + Frames(payloads);
    SplitEqual(MAGIC, Frames(done) + rest, MAGIC, Frames(payloads));
    FramesPrefix(done, rest, payloads);
    var ahead := payloads[|done|..];
    assert ahead != [];
    FrameAtFront(bytes, pos, ahead[0], Frames(ahead[1..]));
  }

  lemma FrameAtFront(bytes: seq<Byte>, pos: nat, payload: Payload, tail: seq<Byte>)
    requires pos <= |bytes| && PayloadOk(payload) && bytes[pos..] == Frame(payload) + tail
    ensures FrameAt(bytes, pos) == Some(payload)
  {
    var rest, header := bytes[pos..], BigEndian(|payload|, 4);
    assert rest == header + (payload + tail);
    assert bytes[pos..pos + 4] == rest[..4] == header;
    assert bytes[pos + 4..pos + 4 + |payload|] == rest[4..4 + |payload|] == payload;
    Power256Values();
    BigEndianRoundTrip(|payload|, 4);
  }

  /** A frame is read exactly when some payload within bounds is framed there, and it is that payload. */
  lemma FrameAtIff(bytes: seq<Byte>, pos: nat, payload: Payload)
    requires pos <= |bytes|
    ensures FrameAt(bytes, pos) == Some(payload) <==> PayloadOk(payload) && Frame(payload) <= bytes[pos..]
  {
    if FrameAt(bytes, pos) == Some(payload) {
      var header := bytes[pos..pos + 4];
      BigEndianCanonical(header);
      assert bytes[pos..][..4 + |payload|] == header + payload;
    }
    if PayloadOk(payload) && Frame(payload) <= bytes[pos..] {
      var tail := bytes[pos..][4 + |payload|..];
      assert bytes[pos..] == Frame(payload) + tail;
      FrameAtFront(bytes, pos, payload, tail);
    }
  }

  lemma BadFrame<T(!new)>(bytes: seq<Byte>, parse: Payload -> Option<T>, done: seq<Payload>, pos: nat)
    requires Bounded(done) && pos < |bytes| && bytes[..pos] == EncodeJournal(done)
    requires FrameAt(bytes, pos).None? || parse(FrameAt(bytes, pos).value).None? || |done| >= MAX_FRAMES
    ensures Rejected(bytes, parse)
  {
    forall payloads | IsJournal(bytes, payloads)
      ensures exists i :: 0 <= i < |payloads| && parse(payloads[i]).None?
    {
      ReadingContinues(bytes, done, pos, payloads);
    }
  }

  lemma GoodFrame(bytes: seq<Byte>, done: seq<Payload>, pos: nat)
    requires pos <= |bytes| && bytes[..pos] == EncodeJournal(done) && FrameAt(bytes, pos).Some?
    ensures var payload := FrameAt(bytes, pos).value;
            bytes[..pos + 4 + |payload|] == EncodeJournal(done + [payload])
  {
    var payload := FrameAt(bytes, pos).value;
    FrameAtIff(bytes, pos, payload);
    var frame := Frame(payload);
    assert bytes[..pos + |frame|] == bytes[..pos] + bytes[pos..][..|frame|];
    FramesAppend(done, payload);
    assert MAGIC + Frames(done) + frame == MAGIC + (Frames(done) + frame);
  }

  lemma BadMagic<T(!new)>(bytes: seq<Byte>, parse: Payload -> Option<T>)
    requires bytes != [] && !(MAGIC <= bytes)
    ensures Rejected(bytes, parse)
  {
  }

  /** The bounded decoder: any reading it returns is the file's own, and it fails only when there is none. */
  method DecodeJournal<T(!new)>(bytes: seq<Byte>, parse: Payload -> Option<T>) returns (r: Result<seq<T>, ()>)
    ensures r.Ok? ==> exists payloads :: IsJournal(bytes, payloads) && Parsed(parse, payloads, r.value)
    ensures r.Err? ==> Rejected(bytes, parse)
  {
    if bytes == [] {
      assert IsJournal(bytes, []) && Parsed<T>(parse, [], []);
      return Ok([]);
    }
    if !(MAGIC <= bytes) {
      BadMagic(bytes, parse);
      return Err(());
    }
    var ops: seq<T> := [];
    ghost var done: seq<Payload> := [];
    var pos := 8;
    while pos < |bytes|
      invariant 8 <= pos <= |bytes|
      invariant Bounded(done) && Parsed(parse, done, ops)
      invariant bytes[..pos] == EncodeJournal(done)
    {
      var frame := FrameAt(bytes, pos);
      if frame.None? || parse(frame.value).None? || |ops| + 1 > MAX_FRAMES {
        BadFrame(bytes, parse, done, pos);
        return Err(());
      }
      GoodFrame(bytes, done, pos);
      ops := ops + [parse(frame.value).value];
      done := done + [frame.value];
      pos := pos + 4 + |frame.value|;
    }
    assert bytes[..pos] == bytes;
    return Ok(ops);
  }

  function Payloads<T>(ops: seq<T>, serialize: T -> Payload): (payloads: seq<Payload>)
    ensures |payloads| == |ops| && forall i :: 0 <= i < |ops| ==> payloads[i] == serialize(ops[i])
  {
    seq(|ops|, i requires 0 <= i < |ops| => serialize(ops[i]))
  }

  /** The complete rewrite of the journal body; it fails only on the two size bounds. */
  method EncodeOperations<T>(ops: seq<T>, serialize: T -> Payload) returns (r: Result<seq<Byte>, ()>)
    ensures r.Ok? <==> |ops| <= MAX_FRAMES && forall i :: 0 <= i < |ops| ==> |serialize(ops[i])| <= MAX_FRAME_LEN
    ensures r.Ok? ==> r.value == EncodeJournal(Payloads(ops, serialize))
  {
    if |ops| > MAX_FRAMES {
      return Err(());
    }
    var body := MAGIC;
    ghost var all := Payloads(ops, serialize);
    for i := 0 to |ops|
      invariant forall j :: 0 <= j < i ==> |serialize(ops[j])| <= MAX_FRAME_LEN
      invariant body == EncodeJournal(all[..i])
    {
      var payload := serialize(ops[i]);
      if |payload| > MAX_FRAME_LEN {
        return Err(());
      }
      FramesAppend(all[..i], payload);
      assert all[..i + 1] == all[..i] + [payload];
      body := body + BigEndian(|payload|, 4) + payload;
    }
    assert all[..|ops|] == all;
    return Ok(body);
  }

  /** What is written is read back, for any codec that is an inverse pair with non-empty output. */
  method WriteThenRead<T(!new)>(ops: seq<T>, serialize: T -> Payload, parse: Payload -> Option<T>)
    returns (written: Result<seq<Byte>, ()>, read: Result<seq<T>, ()>)
    requires forall op :: serialize(op) != [] && parse(serialize(op)) == Some(op)
    ensures written.Ok? <==> |ops| <= MAX_FRAMES && forall i :: 0 <= i < |ops| ==> |serialize(ops[i])| <= MAX_FRAME_LEN
    ensures written.Ok? ==> read == Ok(ops)
  {
    read := Err(());
    written := EncodeOperations(ops, serialize);
    if written.Ok? {
      read := DecodeJournal(written.value, parse);
      var payloads := Payloads(ops, serialize);
      assert IsJournal(written.value, payloads);
      assert read.Ok?;
      ghost var found :| IsJournal(written.value, found) && Parsed(parse, found, read.value);
      JournalUnique(written.value, payloads, found);
      assert read.value == ops;
    }
  }
}
