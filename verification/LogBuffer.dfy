/** The dashboard's bounded log buffer. */
module LogBuffer {
  import opened Wrappers
  import opened Bytes

  /** Bytes of one character in UTF-8. */
  function Width(c: char): nat {
    if c as int < 0x80 then 1 else if c as int < 0x800 then 2 else if c as int < 0x10000 then 3 else 4
  }

  function ByteLen(s: string): nat {
    if s == "" then 0 else Width(s[0]) + ByteLen(s[1..])
  }

  /** The UTF-8 encoding of one character: six bits of it in every byte after the first. */
  function Utf8(c: char): seq<Byte> {
    var n := c as int;
    var high := n / 64;
    var higher := high / 64;
    if n < 0x80 then [n]
    else if n < 0x800 then [0xC0 + high, 0x80 + n % 64]
    else if n < 0x10000 then [0xE0 + higher, 0x80 + high % 64, 0x80 + n % 64]
    else [0xF0 + higher / 64, 0x80 + higher % 64, 0x80 + high % 64, 0x80 + n % 64]
  }

  function Encoded(s: string): seq<Byte> {
    if s == "" then [] else Utf8(s[0]) + Encoded(s[1..])
  }

  /** The bits that the bytes after the first append to `lead`, six each. */
  function Spelled(lead: int, rest: seq<Byte>): int {
    if rest == [] then lead else Spelled(lead, rest[..|rest| - 1]) * 64 + (rest[|rest| - 1] as int - 0x80)
  }

  /** The number a sequence of one to four bytes spells. */
  function FromUtf8(b: seq<Byte>): int
    requires 1 <= |b| <= 4
  {
    var marker := if |b| == 1 then 0 else if |b| == 2 then 0xC0 else if |b| == 3 then 0xE0 else 0xF0;
    Spelled(b[0] as int - marker, b[1..])
  }

  lemma SpelledOne(lead: int, x: Byte)
    ensures Spelled(lead, [x]) == lead * 64 + (x as int - 0x80)
  {
    assert [x][..0] == [];
  }

  lemma SpelledTwo(lead: int, x: Byte, y: Byte)
    ensures Spelled(lead, [x, y]) == Spelled(lead, [x]) * 64 + (y as int - 0x80)
  {
    assert [x, y][..1] == [x];
  }

  lemma SpelledThree(lead: int, x: Byte, y: Byte, z: Byte)
    ensures Spelled(lead, [x, y, z]) == Spelled(lead, [x, y]) * 64 + (z as int - 0x80)
  {
    assert [x, y, z][..2] == [x, y];
  }

  /** The encoding spells the character. */
  lemma Utf8Spells(c: char)
    ensures |Utf8(c)| == Width(c) && FromUtf8(Utf8(c)) == c as int
  {
    var b, n := Utf8(c), c as int;
    var high := n / 64;
    var higher := high / 64;
    assert n == 64 * high + n % 64 && high == 64 * higher + high % 64 && higher == 64 * (higher / 64) + higher % 64;
    if n >= 0x10000 {
      var lead := b[0] as int - 0xF0;
      assert b[1..] == [b[1], b[2], b[3]];
      SpelledOne(lead, b[1]);
      SpelledTwo(lead, b[1], b[2]);
      SpelledThree(lead, b[1], b[2], b[3]);
    } else if n >= 0x800 {
      var lead := b[0] as int - 0xE0;
      assert b[1..] == [b[1], b[2]];
      SpelledOne(lead, b[1]);
      SpelledTwo(lead, b[1], b[2]);
    } else if n >= 0x80 {
      assert b[1..] == [b[1]];
      SpelledOne(b[0] as int - 0xC0, b[1]);
    }
  }

  /** Byte lengths are the lengths of UTF-8 encodings. */
  lemma {:induction false} ByteLenIsEncodedLength(s: string)
    ensures ByteLen(s) == |Encoded(s)|
  {
    if s != "" {
      Utf8Spells(s[0]);
      ByteLenIsEncodedLength(s[1..]);
    }
  }

  lemma {:induction false} ByteLenSplit(s: string, k: nat)
    requires k <= |s|
    ensures ByteLen(s) == ByteLen(s[..k]) + ByteLen(s[k..])
  {
    if k > 0 {
      ByteLenSplit(s[1..], k - 1);
      assert s[1..][..k - 1] == s[..k][1..] && s[1..][k - 1..] == s[k..];
    } else {
      assert s[0..] == s;
    }
  }

  // ----- trimming one entry -----

  /** The character that starts at a byte offset, if the offset is a character boundary. */
  function CharAt(s: string, offset: nat): (k: Option<nat>)
    ensures k.Some? ==> k.value <= |s| && ByteLen(s[..k.value]) == offset
  {
    if offset == 0 then Some(0)
    else if s == "" || offset < Width(s[0]) then None
    else
      var rest := CharAt(s[1..], offset - Width(s[0]));
      if rest.None? then None else
        assert s[..rest.value + 1][1..] == s[1..][..rest.value];
        Some(rest.value + 1)
  }

  lemma {:induction false} BoundaryFound(s: string, k: nat)
    requires k <= |s|
    ensures CharAt(s, ByteLen(s[..k])) == Some(k)
  {
    if k > 0 {
      BoundaryFound(s[1..], k - 1);
      assert s[..k][1..] == s[1..][..k - 1];
    }
  }

  /** `kept` is the longest tail of `s` with at most `max` bytes. */
  ghost predicate LongestTail(s: string, kept: string, max: nat) {
    && |kept| <= |s| && kept == s[|s| - |kept|..]
    && ByteLen(kept) <= max
    && forall j {:trigger TailTooLong(s, j, max)} :: 0 <= j < |s| - |kept| ==> TailTooLong(s, j, max)
  }

  predicate TailTooLong(s: string, j: nat, max: nat)
    requires j <= |s|
  {
    ByteLen(s[j..]) > max
  }

  /** The scan forward to a character boundary keeps as many whole characters as fit. */
  method TrimToBytes(entry: string, max: nat) returns (kept: string)
    requires ByteLen(entry) > max
    ensures LongestTail(entry, kept, max)
  {
    var start := ByteLen(entry) - max;
    BoundaryFound(entry, |entry|);
    assert entry[..|entry|] == entry;
    while CharAt(entry, start).None?
      invariant ByteLen(entry) - max <= start <= ByteLen(entry)
      invariant forall offset :: ByteLen(entry) - max <= offset < start ==> CharAt(entry, offset).None?
      decreases ByteLen(entry) - start
    {
      start := start + 1;
    }
    var k := CharAt(entry, start).value;
    kept := entry[k..];
    ByteLenSplit(entry, k);
    forall j | 0 <= j < k
      ensures TailTooLong(entry, j, max)
    {
      ByteLenSplit(entry, j);
      BoundaryFound(entry, j);
      PrefixShorter(entry, j, k);
    }
  }

  lemma PrefixShorter(s: string, j: nat, k: nat)
    requires j < k <= |s|
    ensures ByteLen(s[..j]) < ByteLen(s[..k])
  {
    ByteLenSplit(s[..k], j);
    assert s[..k][..j] == s[..j];
    assert s[..k][j..] != "";
  }

  /** An entry as it goes into the buffer: itself, or its longest tail within the byte bound. */
  ghost predicate StoredAs(pushed: string, stored: string, maxBytes: nat) {
    if ByteLen(pushed) <= maxBytes then stored == pushed else LongestTail(pushed, stored, maxBytes)
  }

  method Admit(entry: string, maxBytes: nat) returns (kept: string, trimmed: bool)
    ensures StoredAs(entry, kept, maxBytes)
    ensures trimmed <==> ByteLen(entry) > maxBytes
  {
    kept, trimmed := entry, ByteLen(entry) > maxBytes;
    if trimmed {
      kept := TrimToBytes(entry, maxBytes);
    }
  }

  // ----- the buffer -----

  function Total(entries: seq<string>): nat {
    if entries == [] then 0 else ByteLen(entries[0]) + Total(entries[1..])
  }

  lemma {:induction false} TotalSplit(entries: seq<string>, k: nat)
    requires k <= |entries|
    ensures Total(entries) == Total(entries[..k]) + Total(entries[k..])
  {
    if k > 0 {
      TotalSplit(entries[1..], k - 1);
      assert entries[1..][..k - 1] == entries[..k][1..] && entries[1..][k - 1..] == entries[k..];
    } else {
      assert entries[0..] == entries;
    }
  }

  predicate Fits(entries: seq<string>, maxLines: nat, maxBytes: nat) {
    |entries| <= maxLines && Total(entries) <= maxBytes
  }

  /** What follows place `k` is the longest suffix of `history` that fits both bounds. */
  ghost predicate LongestSuffix(history: seq<string>, k: nat, maxLines: nat, maxBytes: nat) {
    k <= |history| && Fits(history[k..], maxLines, maxBytes) && NoLongerFits(history, k, maxLines, maxBytes)
  }

  /** No suffix that starts before place `k` fits. */
  ghost predicate NoLongerFits(history: seq<string>, k: nat, maxLines: nat, maxBytes: nat)
    requires k <= |history|
  {
    forall j {:trigger Fits(history[j..], maxLines, maxBytes)} :: 0 <= j < k ==> !Fits(history[j..], maxLines, maxBytes)
  }

  /** A suffix that did not fit does not fit with one more entry behind it. */
  lemma StillTooLong(history: seq<string>, entry: string, k: nat, maxLines: nat, maxBytes: nat)
    requires k <= |history| && NoLongerFits(history, k, maxLines, maxBytes)
    ensures NoLongerFits(history + [entry], k, maxLines, maxBytes)
  {
    forall j | 0 <= j < k
      ensures !Fits((history + [entry])[j..], maxLines, maxBytes)
    {
      var suffix := (history + [entry])[j..];
      assert !Fits(history[j..], maxLines, maxBytes);
      assert suffix == history[j..] + [entry];
      TotalSplit(suffix, |history[j..]|);
      assert suffix[..|history[j..]|] == history[j..];
    }
  }

  /** `stored` is the history of pushes as the buffer stored them. */
  ghost predicate Recorded(pushed: seq<string>, stored: seq<string>, maxBytes: nat) {
    && |stored| == |pushed|
    && forall i {:trigger StoredAs(pushed[i], stored[i], maxBytes)} :: 0 <= i < |pushed| ==>
         StoredAs(pushed[i], stored[i], maxBytes)
  }

  /** Some pushed entry was larger than the byte bound. */
  predicate Oversized(pushed: seq<string>, maxBytes: nat) {
    exists i {:trigger ByteLen(pushed[i])} :: 0 <= i < |pushed| && ByteLen(pushed[i]) > maxBytes
  }

  lemma RecordGrows(pushed: seq<string>, stored: seq<string>, entry: string, kept: string, maxBytes: nat)
    requires Recorded(pushed, stored, maxBytes) && StoredAs(entry, kept, maxBytes)
    ensures Recorded(pushed + [entry], stored + [kept], maxBytes)
    ensures Oversized(pushed + [entry], maxBytes) <==> Oversized(pushed, maxBytes) || ByteLen(entry) > maxBytes
  {
    var longer := pushed + [entry];
    assert longer[|pushed|] == entry;
    assert forall i :: 0 <= i < |pushed| ==> longer[i] == pushed[i];
  }

  lemma TotalAppend(entries: seq<string>, kept: string)
    ensures Total(entries + [kept]) == Total(entries) + ByteLen(kept)
  {
    TotalSplit(entries + [kept], |entries|);
    assert (entries + [kept])[..|entries|] == entries && (entries + [kept])[|entries|..] == [kept];
    assert Total([kept]) == ByteLen(kept) + Total([]);
  }

  const MARKER := "[Earlier log output truncated]\n"

  class LogBuffer {
    var entries: seq<string>
    var bytes: nat
    const maxLines: nat
    const maxBytes: nat
    var truncated: bool
    ghost var pushed: seq<string>  // everything ever pushed
    ghost var stored: seq<string>  // the same entries as they went into the buffer
    ghost var dropped: nat         // how many of the oldest have been evicted

    /** The buffer is the longest suffix of its history that fits, and says so exactly when something is missing. */
    ghost predicate Valid()
      reads this
    {
      && Recorded(pushed, stored, maxBytes)
      && LongestSuffix(stored, dropped, maxLines, maxBytes)
      && entries == stored[dropped..] && bytes == Total(entries)
      && (truncated <==> dropped > 0 || Oversized(pushed, maxBytes))
    }

    constructor (maxLines: nat, maxBytes: nat)
      ensures Valid() && pushed == [] && this.maxLines == maxLines && this.maxBytes == maxBytes
    {
      this.maxLines, this.maxBytes := maxLines, maxBytes;
      entries, bytes, truncated := [], 0, false;
      pushed, stored, dropped := [], [], 0;
    }

    method Push(entry: string)
      requires Valid()
      modifies this
      ensures Valid() && pushed == old(pushed) + [entry]
      ensures |entries| <= maxLines && bytes <= maxBytes
    {
      var kept, trimmed := Admit(entry, maxBytes);
      RecordGrows(pushed, stored, entry, kept, maxBytes);
      StillTooLong(stored, kept, dropped, maxLines, maxBytes);
      assert entries + [kept] == (stored + [kept])[dropped..];
      TotalAppend(entries, kept);
      bytes := bytes + ByteLen(kept);
      entries := entries + [kept];
      truncated := truncated || trimmed;
      pushed, stored := pushed + [entry], stored + [kept];
      Evict();
    }

    /** The eviction loop: the oldest entries go until both bounds hold. */
    method Evict()
      requires dropped <= |stored| && entries == stored[dropped..] && bytes == Total(entries)
      requires NoLongerFits(stored, dropped, maxLines, maxBytes)
      modifies this`entries, this`bytes, this`truncated, this`dropped
      ensures LongestSuffix(stored, dropped, maxLines, maxBytes)
      ensures entries == stored[dropped..] && bytes == Total(entries)
      ensures dropped >= old(dropped) && (truncated <==> old(truncated) || dropped > old(dropped))
    {
      while |entries| > maxLines || bytes > maxBytes
        invariant old(dropped) <= dropped <= |stored| && entries == stored[dropped..] && bytes == Total(entries)
        invariant NoLongerFits(stored, dropped, maxLines, maxBytes)
        invariant truncated <==> old(truncated) || dropped > old(dropped)
        decreases |entries|
      {
        assert entries != [];
        assert !Fits(stored[dropped..], maxLines, maxBytes);
        bytes := bytes - ByteLen(entries[0]);
        entries := entries[1..];
        truncated, dropped := true, dropped + 1;
      }
    }

    /** The text is what the history kept, after the marker exactly when something was dropped or trimmed. */
    method Text() returns (text: string)
      requires Valid()
      ensures var marker := if dropped > 0 || Oversized(pushed, maxBytes) then MARKER else "";
              text == marker + Concatenated(stored[dropped..])
    {
      text := if truncated then MARKER else "";
      text := PushAll(text, entries);
    }
  }

  method PushAll(head: string, entries: seq<string>) returns (text: string)
    ensures text == head + Concatenated(entries)
  {
    text := head;
    for i := 0 to |entries|
      invariant text == head + Concatenated(entries[..i])
    {
      ConcatenatedAppend(entries[..i], entries[i]);
      assert entries[..i + 1] == entries[..i] + [entries[i]];
      text := text + entries[i];
    }
    assert entries[..|entries|] == entries;
  }

  function Concatenated(entries: seq<string>): string {
    if entries == [] then "" else entries[0] + Concatenated(entries[1..])
  }

  lemma {:induction false} ConcatenatedAppend(entries: seq<string>, last: string)
    ensures Concatenated(entries + [last]) == Concatenated(entries) + last
  {
    if entries == [] {
      assert entries + [last] == [last];
      assert Concatenated([last]) == last + Concatenated([]);
    } else {
      ConcatenatedAppend(entries[1..], last);
      assert (entries + [last])[1..] == entries[1..] + [last];
    }
  }

  /** When no pushed entry is oversized, what is stored is what was pushed. */
  lemma NothingTrimmed(pushed: seq<string>, stored: seq<string>, maxBytes: nat)
    requires Recorded(pushed, stored, maxBytes) && !Oversized(pushed, maxBytes)
    ensures stored == pushed
  {
    forall i | 0 <= i < |pushed|
      ensures stored[i] == pushed[i]
    {
      assert StoredAs(pushed[i], stored[i], maxBytes);
    }
  }
}
