/** The tagged wire format of event_tagging.c.  The source's comments promise integers
    and tags with the most significant part first; the code writes, and reads, the
    least significant part first. */
module Tagging {
  import opened Bytes
  import opened ByteQueue
  import opened Lists

  const U32: nat := 0x1_0000_0000
  const U64: nat := 0x1_0000_0000_0000_0000
  const INT_MAX: nat := 0x7fff_ffff

  // ----- nibbles

  /** n without its i last hexadecimal digits */
  function Shift(n: nat, i: nat): nat {
    if i == 0 then n else Shift(n / 16, i - 1)
  }

  lemma {:induction false} ShiftMore(n: nat, i: nat)
    ensures Shift(n, i + 1) == Shift(n, i) / 16
  {
    if i != 0 {
      ShiftMore(n / 16, i - 1);
    }
  }

  /** The number of hexadecimal digits; none for zero */
  function Digits(n: nat): nat {
    if n == 0 then 0 else 1 + Digits(n / 16)
  }

  lemma {:induction false} ShiftedAway(n: nat)
    ensures Shift(n, Digits(n)) == 0 && forall i | 0 <= i < Digits(n) :: Shift(n, i) != 0
  {
    if n != 0 {
      ShiftedAway(n / 16);
      forall i | 0 <= i < Digits(n) ensures Shift(n, i) != 0 {
        assert i != 0 ==> Shift(n, i) == Shift(n / 16, i - 1);
      }
    }
  }

  function Pow16(k: nat): nat {
    if k == 0 then 1 else 16 * Pow16(k - 1)
  }

  lemma {:induction false} DigitsBound(n: nat, k: nat)
    requires n < Pow16(k)
    ensures Digits(n) <= k
  {
    if n != 0 {
      DigitsBound(n / 16, k - 1);
    }
  }

  lemma WordSizes()
    ensures Pow16(8) == U32 && Pow16(16) == U64
  {
    assert Pow16(4) == 0x1_0000;
    assert Pow16(8) == 0x1_0000_0000;
    assert Pow16(12) == 0x1_0000_0000_0000;
  }

  /** The number of nibbles that are announced: one more than what is stored in front */
  function Nibbles(n: nat): nat {
    if Digits(n) == 0 then 1 else Digits(n)
  }

  /** How an integer is written: the number of its digits less one, then the digits,
      the least significant first, with a zero nibble to fill the last byte. */
  function IntCode(n: nat): (s: seq<byte>)
    requires Digits(n) <= 16
    ensures |s| == Nibbles(n) / 2 + 1
  {
    seq(Nibbles(n) / 2 + 1, j requires 0 <= j => IntByte(n, j))
  }

  function IntByte(n: nat, j: nat): byte
    requires Digits(n) <= 16
  {
    if j == 0 then 16 * (Nibbles(n) - 1) + n % 16 else 16 * (Shift(n, 2 * j - 1) % 16) + Shift(n, 2 * j) % 16
  }

  /** Nibble i of s; nibble 0 is the high half of the first byte. */
  function NibbleAt(s: seq<byte>, i: nat): nat
    requires i / 2 < |s|
  {
    if i % 2 == 1 then s[i / 2] % 16 else s[i / 2] / 16
  }

  /** The number that nibbles i..k of s write */
  function ValueOf(s: seq<byte>, i: nat, k: nat): nat
    requires k / 2 < |s|
    decreases k + 1 - i
  {
    if k < i then 0 else NibbleAt(s, i) + 16 * ValueOf(s, i + 1, k)
  }

  /** The integer at the beginning of s, and the number of its bytes */
  function ReadInt(s: seq<byte>, maxNibbles: nat): Option<(nat, nat)> {
    if s == [] then None
    else
      var k := s[0] / 16 + 1;
      if maxNibbles < k || |s| < k / 2 + 1 then None else Some((ValueOf(s, 1, k), k / 2 + 1))
  }

  lemma {:induction false} ValueOfCode(n: nat, rest: seq<byte>, i: nat)
    requires Digits(n) <= 16 && 1 <= i <= Nibbles(n) + 1
    ensures ValueOf(IntCode(n) + rest, i, Nibbles(n)) == Shift(n, i - 1)
    decreases Nibbles(n) + 1 - i
  {
    var s, k := IntCode(n) + rest, Nibbles(n);
    ShiftedAway(n);
    if i == k + 1 {
      assert Digits(n) == 0 ==> Shift(n, 1) == 0;
    } else {
      ValueOfCode(n, rest, i + 1);
      ShiftMore(n, i - 1);
      assert s[i / 2] == IntByte(n, i / 2);
      NibbleOfByte(n, s, i);
    }
  }

  lemma NibbleOfByte(n: nat, s: seq<byte>, i: nat)
    requires Digits(n) <= 16 && 1 <= i && i / 2 < |s| && s[i / 2] == IntByte(n, i / 2)
    ensures NibbleAt(s, i) == Shift(n, i - 1) % 16
  {
    hide Digits, Shift;
    var j := i / 2;
    if j == 0 {
      Halves16(Nibbles(n) - 1, n % 16);
      ShiftNothing(n);
    } else {
      Halves16(Shift(n, 2 * j - 1) % 16, Shift(n, 2 * j) % 16);
    }
  }

  lemma ShiftNothing(n: nat)
    ensures Shift(n, 0) == n
  {}

  lemma Halves16(a: nat, b: nat)
    requires b < 16
    ensures (16 * a + b) / 16 == a && (16 * a + b) % 16 == b
  {}

  lemma {:induction false} ValueBound(s: seq<byte>, i: nat, k: nat)
    requires k / 2 < |s| && i <= k + 1
    ensures ValueOf(s, i, k) < Pow16(k + 1 - i)
    decreases k + 1 - i
  {
    if i <= k {
      ValueBound(s, i + 1, k);
    }
  }

  lemma {:induction false} Pow16Grows(i: nat, k: nat)
    requires i <= k
    ensures 0 < Pow16(i) <= Pow16(k)
    decreases k
  {
    if i < k {
      Pow16Grows(i, k - 1);
    } else if 0 < k {
      Pow16Grows(k - 1, k - 1);
    }
  }

  lemma IntBound(s: seq<byte>)
    ensures ReadInt(s, 8).Some? ==> ReadInt(s, 8).value.0 < U32
    ensures ReadInt(s, 16).Some? ==> ReadInt(s, 16).value.0 < U64
  {
    WordSizes();
    if s != [] && s[0] / 16 / 2 + 1 <= |s| {
      var k := s[0] / 16 + 1;
      if k / 2 < |s| {
        ValueBound(s, 1, k);
        Pow16Grows(k, 16);
        if k <= 8 {
          Pow16Grows(k, 8);
        }
      }
    }
  }

  lemma ReadOfCode(n: nat, rest: seq<byte>, max: nat)
    requires Digits(n) <= max <= 16 && 1 <= max
    ensures ReadInt(IntCode(n) + rest, max) == Some((n, |IntCode(n)|))
  {
    hide ValueOf;
    ValueOfCode(n, rest, 1);
    assert (IntCode(n) + rest)[0] == IntByte(n, 0);
    assert IntByte(n, 0) / 16 + 1 == Nibbles(n);
  }

  /** Every 32-bit (64-bit) integer is read back from its code, whatever follows, and
      the code has at most five (nine) bytes. */
  lemma IntRoundTrip(n: nat, rest: seq<byte>)
    ensures n < U32 ==> Digits(n) <= 8 && |IntCode(n)| <= 5 && ReadInt(IntCode(n) + rest, 8) == Some((n, |IntCode(n)|))
    ensures n < U64 ==>
              Digits(n) <= 16 && |IntCode(n)| <= 9 && ReadInt(IntCode(n) + rest, 16) == Some((n, |IntCode(n)|))
  {
    hide ReadInt;
    WordSizes();
    if n < U32 {
      DigitsBound(n, 8);
      ReadOfCode(n, rest, 8);
    }
    if n < U64 {
      DigitsBound(n, 16);
      ReadOfCode(n, rest, 16);
    }
  }

  /** ENCODE_INT_INTERNAL, for a number of size bytes */
  method EncodeIntInternal(n: nat, size: nat) returns (data: array<byte>, len: nat)
    requires (size == 4 && n < U32) || (size == 8 && n < U64)
    ensures fresh(data) && data.Length == size + 1 && len <= size + 1
    ensures Digits(n) <= 16 && data[..len] == IntCode(n)
  {
    hide PartByte, IntByte, Digits, Shift;
    IntRoundTrip(n, []);
    NothingShifted(n);
    data := new byte[size + 1](_ => 0);
    var off, number := 1, n;
    while number != 0
      invariant 1 <= off <= Digits(n) + 1 && number == Shift(n, off - 1)
      invariant forall j | 0 <= j < data.Length :: data[j] == PartByte(n, j, off)
      decreases Digits(n) + 1 - off
    {
      ShiftedAway(n);
      ShiftMore(n, off - 1);
      PartStep(n, off);
      if off % 2 == 1 {
        data[off / 2] := data[off / 2] / 16 * 16 + number % 16;
      } else {
        data[off / 2] := data[off / 2] % 16 + number % 16 * 16;
      }
      number := number / 16;
      off := off + 1;
    }
    ShiftedAway(n);
    assert off == Digits(n) + 1;
    var nibbles := if 2 < off then off - 2 else 0;
    data[0] := data[0] % 16 + nibbles * 16;
    len := (off + 1) / 2;
    CodeFromParts(n, data[..], len);
  }

  lemma CodeFromParts(n: nat, d: seq<byte>, len: nat)
    requires Digits(n) <= 16 && len == Nibbles(n) / 2 + 1 && len <= |d|
    requires d[0] == PartByte(n, 0, Digits(n) + 1) % 16 + 16 * (Nibbles(n) - 1)
    requires forall j | 1 <= j < len :: d[j] == PartByte(n, j, Digits(n) + 1)
    ensures d[..len] == IntCode(n)
  {
    hide PartByte, Digits, Shift;
    forall j | 0 <= j < len ensures d[j] == IntByte(n, j) {
      PartIsAll(n, j);
    }
  }

  lemma NothingShifted(n: nat)
    ensures Shift(n, 0) == n && forall j: nat :: PartByte(n, j, 1) == 0
    ensures Digits(n) <= 16 ==> IntByte(n, 0) == 16 * (Nibbles(n) - 1) + n % 16
  {}

  /** Byte j of the code before nibble off has been written */
  function PartByte(n: nat, j: nat, off: nat): byte {
    (if 0 < j && 2 * j < off then 16 * (Shift(n, 2 * j - 1) % 16) else 0) +
    (if 2 * j + 1 < off then Shift(n, 2 * j) % 16 else 0)
  }

  /** What writing nibble off changes */
  lemma PartStep(n: nat, off: nat)
    requires 1 <= off
    ensures off % 2 == 1 ==>
              PartByte(n, off / 2, off + 1) == PartByte(n, off / 2, off) / 16 * 16 + Shift(n, off - 1) % 16
    ensures off % 2 == 0 ==>
              PartByte(n, off / 2, off + 1) == PartByte(n, off / 2, off) % 16 + Shift(n, off - 1) % 16 * 16
    ensures forall j: nat | j != off / 2 :: PartByte(n, j, off + 1) == PartByte(n, j, off)
  {}

  lemma PartIsAll(n: nat, j: nat)
    requires Digits(n) <= 16 && j <= Nibbles(n) / 2
    ensures 0 < j ==> PartByte(n, j, Digits(n) + 1) == IntByte(n, j)
    ensures j == 0 ==> PartByte(n, j, Digits(n) + 1) == n % 16
  {
    if Digits(n) <= 2 * j {
      NoMoreDigits(n, 2 * j);
    }
  }

  lemma NoMoreDigits(n: nat, i: nat)
    requires Digits(n) <= i
    ensures Shift(n, i) == 0
    decreases i
  {
    if i == Digits(n) {
      ShiftedAway(n);
    } else {
      NoMoreDigits(n, i - 1);
      ShiftMore(n, i - 1);
    }
  }

  /** DECODE_INT_INTERNAL, at an offset of the content */
  method DecodeIntInternal(evbuf: Buffer, offset: nat, maxNibbles: nat) returns (r: int, number: nat)
    ensures var res := if offset <= |evbuf.content| then ReadInt(evbuf.content[offset..], maxNibbles) else None;
            if res == None then r == -1 else r == res.value.1 && number == res.value.0
    ensures r == -1 ==> number == 0
  {
    number := 0;
    var len := |evbuf.content| - offset;
    if len <= 0 {
      return -1, 0;
    }
    var data := evbuf.content[offset..];
    var nibbles: nat := data[0] / 16 + 1;
    if maxNibbles < nibbles || len < nibbles / 2 + 1 {
      return -1, 0;
    }
    len := nibbles / 2 + 1;
    ghost var k := nibbles;
    while 0 < nibbles
      invariant nibbles <= k && number == ValueOf(data, nibbles + 1, k)
    {
      number := number * 16 + NibbleAt(data, nibbles);
      nibbles := nibbles - 1;
    }
    r := len;
  }

  // ----- tags

  /** How a tag is written: seven bits a byte, the lowest first, with the high bit set
      in all bytes but the last. */
  function TagCode(tag: nat): (s: seq<byte>)
    ensures s != []
  {
    if tag < 128 then [tag] else [128 + tag % 128] + TagCode(tag / 128)
  }

  /** What decode_tag_internal finds: no complete tag, a tag, or more than five bytes of
      one, of which the C code reads bytes that it did not ask evbuffer_pullup for. */
  datatype TagRead = NoTag | Overlong | Tag(number: nat, used: nat)

  function ReadBits(s: seq<byte>, i: nat): TagRead
    requires i <= |s|
    decreases |s| - i
  {
    if i == |s| then NoTag
    else if 5 <= i then Overlong
    else if s[i] < 128 then Tag(s[i], i + 1)
    else
      var r := ReadBits(s, i + 1);
      if r.Tag? then r.(number := s[i] - 128 + 128 * r.number) else r
  }

  function ReadTag(s: seq<byte>): TagRead {
    var r := ReadBits(s, 0);
    if r.Tag? then r.(number := r.number % U32) else r
  }

  function Pow128(k: nat): (p: nat)
    ensures 0 < p
  {
    if k == 0 then 1 else 128 * Pow128(k - 1)
  }

  lemma {:induction false} ReadBitsOfCode(pre: seq<byte>, tag: nat, rest: seq<byte>)
    requires |pre| <= 4 && tag < Pow128(5 - |pre|)
    ensures |pre| + |TagCode(tag)| <= 5
    ensures ReadBits(pre + TagCode(tag) + rest, |pre|) == Tag(tag, |pre| + |TagCode(tag)|)
    decreases 5 - |pre|
  {
    var s := pre + TagCode(tag) + rest;
    if 128 <= tag {
      var b: byte := 128 + tag % 128;
      if |pre| < 4 {
        ReadBitsOfCode(pre + [b], tag / 128, rest);
        assert s == pre + [b] + TagCode(tag / 128) + rest;
      }
    }
  }

  /** Every 32-bit tag is read back from its code, whatever follows. */
  lemma TagRoundTrip(tag: nat, rest: seq<byte>)
    requires tag < U32
    ensures |TagCode(tag)| <= 5 && ReadTag(TagCode(tag) + rest) == Tag(tag, |TagCode(tag)|)
  {
    assert Pow128(2) == 16384;
    assert Pow128(5) == 128 * 128 * 128 * Pow128(2);
    ReadBitsOfCode([], tag, rest);
    assert [] + TagCode(tag) + rest == TagCode(tag) + rest;
  }

  /** The bytes still to be written */
  function TagRest(rest: nat): seq<byte> {
    if rest == 0 then [] else TagCode(rest)
  }

  lemma TagStep(tag: nat)
    ensures TagCode(tag) == [if tag / 128 != 0 then tag % 128 + 128 else tag % 128] + TagRest(tag / 128)
    ensures tag != 0 ==> TagRest(tag) == TagCode(tag)
  {}

  /** evtag_encode_tag */
  method EncodeTag(evbuf: Buffer, tag: nat) returns (bytes: nat)
    requires tag < U32
    modifies evbuf
    ensures evbuf.content == old(evbuf.content) + TagCode(tag) && bytes == |TagCode(tag)| <= 5
  {
    TagRoundTrip(tag, []);
    TagStep(tag);
    hide TagCode, TagRest;
    var data := new byte[5](_ => 0);
    var rest: nat, lower := tag / 128, tag % 128;
    data[0] := if rest != 0 then lower + 128 else lower;
    bytes := 1;
    assert data[..1] == [data[0]];
    while rest != 0
      invariant evbuf.content == old(evbuf.content)
      invariant 1 <= bytes <= 5 && TagCode(tag) == data[..bytes] + TagRest(rest)
      decreases rest
    {
      TagStep(rest);
      ghost var before := data[..bytes];
      lower := rest % 128;
      rest := rest / 128;
      data[bytes] := if rest != 0 then lower + 128 else lower;
      Assoc(before, [data[bytes]], TagRest(rest));
      bytes := bytes + 1;
      assert data[..bytes] == before + [data[bytes - 1]];
    }
    NoTagRest();
    assert data[..bytes] + [] == data[..bytes];
    evbuf.Add(data[..bytes]);
  }

  lemma NoTagRest()
    ensures TagRest(0) == []
  {}

  /** How a call ends.  Undefined: the C code reads memory it must not read. */
  datatype Status = OK | FAIL | UNDEFINED

  /** What the loop of decode_tag_internal knows after count bytes */
  ghost predicate BitsSoFar(s: seq<byte>, count: nat, number: nat, shift: nat) {
    && count <= |s|
    && var all, rest := ReadBits(s, 0), ReadBits(s, count);
    && (all.NoTag? <==> rest.NoTag?) && (all.Overlong? <==> rest.Overlong?)
    && (all.Tag? ==> all.number == number + shift * rest.number && all.used == rest.used)
  }

  lemma NoBitsYet(s: seq<byte>)
    ensures BitsSoFar(s, 0, 0, 1)
  {}

  lemma OneMoreByte(s: seq<byte>, count: nat, number: nat, shift: nat)
    requires BitsSoFar(s, count, number, shift) && count < |s| && count < 5
    ensures s[count] < 128 ==> ReadBits(s, 0) == Tag(number + shift * s[count], count + 1)
    ensures 128 <= s[count] ==> BitsSoFar(s, count + 1, number + shift * (s[count] - 128), 128 * shift)
  {
    var next := if count + 1 <= |s| then ReadBits(s, count + 1) else NoTag;
    if 128 <= s[count] && next.Tag? {
      Distribute(shift, s[count] - 128, next.number);
    }
  }

  /** decode_tag_internal */
  method DecodeTagInternal(evbuf: Buffer, doDrain: bool) returns (r: Status, tag: nat, count: nat)
    modifies if doDrain then {evbuf} else {}
    ensures var res := ReadTag(old(evbuf.content));
            && r == (if res.NoTag? then FAIL else if res.Overlong? then UNDEFINED else OK)
            && (r == OK ==> tag == res.number < U32 && count == res.used <= |old(evbuf.content)|)
            && evbuf.content == if r == OK && doDrain then old(evbuf.content)[count..] else old(evbuf.content)
  {
    hide ReadBits, BitsSoFar;
    var number: nat, shift: nat := 0, 1;
    var s := evbuf.content;
    r, tag, count := FAIL, 0, 0;
    NoBitsYet(s);
    while count < |s|
      invariant count <= |s| && count <= 5 && r == FAIL
      invariant BitsSoFar(s, count, number, shift)
      invariant evbuf.content == s
    {
      if count == 5 {
        EndOfBits(s, count, number, shift);
        return UNDEFINED, 0, count;   // behind the bytes that evbuffer_pullup was asked for
      }
      OneMoreByte(s, count, number, shift);
      var lower := s[count];
      number := number + shift * (lower % 128);
      shift := 128 * shift;
      count := count + 1;
      if lower < 128 {
        r := OK;
        break;
      }
    }
    if r == OK {
      ReadTagUsed(s, 0);
      tag := number % U32;
      if doDrain {
        evbuf.Drain(count);
      }
    } else {
      EndOfBits(s, count, number, shift);
    }
  }

  lemma EndOfBits(s: seq<byte>, count: nat, number: nat, shift: nat)
    requires BitsSoFar(s, count, number, shift)
    ensures count == |s| ==> ReadBits(s, 0).NoTag?
    ensures count == 5 < |s| ==> ReadBits(s, 0).Overlong?
  {}

  lemma Distribute(a: nat, x: nat, y: nat)
    ensures a * (x + 128 * y) == a * x + 128 * a * y
  {}

  // ----- records

  /** A tagged record as evtag_marshal writes it */
  function Record(tag: nat, data: seq<byte>): seq<byte>
    requires |data| < U32
  {
    IntRoundTrip(|data|, []);
    TagCode(tag) + IntCode(|data|) + data
  }

  /** The beginning of a record whose payload is all there; rest begins with the payload */
  datatype HeaderRead = NoHeader | BadHeader | Header(tag: nat, len: nat, rest: seq<byte>)

  function ReadHeader(s: seq<byte>): (h: HeaderRead)
    ensures h.Header? ==> h.tag < U32 && h.len < U32 && h.len <= |h.rest| < |s| && h.rest == s[|s| - |h.rest|..]
  {
    var t := ReadTag(s);
    if t.Overlong? then BadHeader
    else if t.NoTag? then NoHeader
    else
      ReadTagUsed(s, 0);
      IntBound(s[t.used..]);
      var n := ReadInt(s[t.used..], 8);
      if n == None || |s| - t.used - n.value.1 < n.value.0 then NoHeader
      else Header(t.number, n.value.0, s[t.used + n.value.1..])
  }

  lemma ReadTagUsed(s: seq<byte>, i: nat)
    requires i <= |s|
    ensures ReadBits(s, i).Tag? ==> i < ReadBits(s, i).used <= |s|
    decreases |s| - i
  {}

  /** A record is read back whatever follows it. */
  lemma RecordRoundTrip(tag: nat, data: seq<byte>, rest: seq<byte>)
    requires tag < U32 && |data| < U32
    ensures ReadHeader(Record(tag, data) + rest) == Header(tag, |data|, data + rest)
  {
    IntRoundTrip(|data|, data + rest);
    var a, b := TagCode(tag), IntCode(|data|);
    assert Record(tag, data) + rest == a + (b + (data + rest));
    TagRoundTrip(tag, b + (data + rest));
    assert (a + (b + (data + rest)))[|a|..] == b + (data + rest);
    assert (a + (b + (data + rest)))[|a| + |b|..] == data + rest;
  }

  /** The length of the whole record that s begins with, complete or not */
  function RecordLength(s: seq<byte>): Option<nat> {
    var t := ReadTag(s);
    if !t.Tag? then None
    else
      ReadTagUsed(s, 0);
      var n := ReadInt(s[t.used..], 8);
      if n == None then None else Some(t.used + n.value.1 + n.value.0)
  }

  /** evtag_peek_length announces what evtag_consume drains, and evtag_consume succeeds
      exactly if that much is there. */
  lemma PeekIsConsumed(s: seq<byte>)
    ensures ReadHeader(s).Header? <==> RecordLength(s).Some? && RecordLength(s).value <= |s|
    ensures ReadHeader(s).Header? ==> RecordLength(s).value == |s| - |ReadHeader(s).rest| + ReadHeader(s).len
  {
    ReadTagUsed(s, 0);
  }

  ghost predicate SuffixOf(s: seq<byte>, t: seq<byte>) {
    |s| <= |t| && s == t[|t| - |s|..]
  }

  // ----- writing records

  /** evtag_encode_int, evtag_encode_int64 */
  method EncodeInt(evbuf: Buffer, n: nat, size: nat) returns (len: nat)
    requires (size == 4 && n < U32) || (size == 8 && n < U64)
    modifies evbuf
    ensures Digits(n) <= 16 && evbuf.content == old(evbuf.content) + IntCode(n) && len == |IntCode(n)|
  {
    var data;
    data, len := EncodeIntInternal(n, size);
    evbuf.Add(data[..len]);
  }

  /** evtag_marshal */
  method Marshal(evbuf: Buffer, tag: nat, data: seq<byte>)
    requires tag < U32 && |data| < U32
    modifies evbuf
    ensures evbuf.content == old(evbuf.content) + Record(tag, data)
  {
    IntRoundTrip(|data|, []);
    var bytes := EncodeTag(evbuf, tag);
    var len := EncodeInt(evbuf, |data|, 4);
    evbuf.Add(data);
  }

  /** evtag_marshal_buffer */
  method MarshalBuffer(evbuf: Buffer, tag: nat, data: Buffer)
    requires tag < U32 && |data.content| < U32 && data != evbuf
    modifies evbuf, data
    ensures evbuf.content == old(evbuf.content) + Record(tag, old(data.content)) && data.content == []
  {
    IntRoundTrip(|data.content|, []);
    var bytes := EncodeTag(evbuf, tag);
    var len := EncodeInt(evbuf, |data.content|, 4);
    evbuf.AddBuffer(data);
  }

  /** evtag_marshal_int (size 4), evtag_marshal_int64 (size 8) */
  method MarshalInt(evbuf: Buffer, tag: nat, n: nat, size: nat)
    requires tag < U32 && ((size == 4 && n < U32) || (size == 8 && n < U64))
    modifies evbuf
    ensures Digits(n) <= 16 && evbuf.content == old(evbuf.content) + Record(tag, IntCode(n))
  {
    var data, len := EncodeIntInternal(n, size);
    IntRoundTrip(len, []);
    var bytes := EncodeTag(evbuf, tag);
    var lenBytes := EncodeInt(evbuf, len, 4);
    evbuf.Add(data[..len]);
  }

  /** The characters of a C string: the bytes before the first NUL */
  function Chars(s: seq<byte>): (c: seq<byte>)
    ensures 0 !in c && (0 !in s ==> c == s)
  {
    if s == [] || s[0] == 0 then [] else [s[0]] + Chars(s[1..])
  }

  // ----- reading records

  /** evtag_peek */
  method Peek(evbuf: Buffer) returns (r: Status, tag: nat)
    ensures var res := ReadTag(evbuf.content);
            && r == (if res.NoTag? then FAIL else if res.Overlong? then UNDEFINED else OK)
            && (r == OK ==> tag == res.number)
  {
    var count;
    r, tag, count := DecodeTagInternal(evbuf, false);
  }

  /** evtag_peek_length */
  method PeekLength(evbuf: Buffer) returns (r: Status, length: nat)
    ensures r == OK <==> RecordLength(evbuf.content).Some?
    ensures r == UNDEFINED <==> ReadTag(evbuf.content).Overlong?
    ensures r == OK ==> length == RecordLength(evbuf.content).value % U32
  {
    var tag, len, res;
    r, tag, len := DecodeTagInternal(evbuf, false);
    length := 0;
    if r == OK {
      ReadTagUsed(evbuf.content, 0);
      res, length := DecodeIntInternal(evbuf, len, 8);
      if res == -1 {
        return FAIL, 0;
      }
      length := (length + res + len) % U32;
    }
  }

  /** evtag_payload_length */
  method PayloadLength(evbuf: Buffer) returns (r: Status, length: nat)
    ensures r == OK <==> RecordLength(evbuf.content).Some?
    ensures r == UNDEFINED <==> ReadTag(evbuf.content).Overlong?
    ensures r == OK ==>
              var t := ReadTag(evbuf.content);
              t.Tag? && t.used <= |evbuf.content| && ReadInt(evbuf.content[t.used..], 8).Some?
              && length == ReadInt(evbuf.content[t.used..], 8).value.0
    ensures ReadHeader(evbuf.content).Header? ==> length == ReadHeader(evbuf.content).len
  {
    var tag, len, res;
    r, tag, len := DecodeTagInternal(evbuf, false);
    length := 0;
    if r == OK {
      ReadTagUsed(evbuf.content, 0);
      res, length := DecodeIntInternal(evbuf, len, 8);
      if res == -1 {
        return FAIL, 0;
      }
    }
  }

  /** A 32-bit length as an int */
  function AsInt(n: nat): int {
    if n <= INT_MAX then n else n - U32
  }

  /** evtag_unmarshal_header.  A length that an int cannot hold comes out negative. */
  method UnmarshalHeader(evbuf: Buffer) returns (r: Status, tag: nat, len: int)
    modifies evbuf
    ensures var h := ReadHeader(old(evbuf.content));
            && (r == UNDEFINED <==> h.BadHeader?)
            && (r == OK ==> h.Header? && tag == h.tag && len == AsInt(h.len) != -1 && evbuf.content == h.rest)
            && (h.Header? && AsInt(h.len) != -1 ==> r == OK)
    ensures SuffixOf(evbuf.content, old(evbuf.content))
  {
    ghost var s := evbuf.content;
    ReadTagUsed(s, 0);
    var count, res, n;
    len := -1;
    r, tag, count := DecodeTagInternal(evbuf, true);
    if r != OK {
      return;
    }
    assert evbuf.content[0..] == evbuf.content;
    res, n := DecodeIntInternal(evbuf, 0, 8);
    if res == -1 {
      return FAIL, tag, -1;
    }
    evbuf.Drain(res);
    if |evbuf.content| < n {
      return FAIL, tag, -1;
    }
    len := AsInt(n);
    if len == -1 {
      return FAIL, tag, -1;
    }
  }

  /** evtag_consume.  A negative length drains everything. */
  method Consume(evbuf: Buffer) returns (r: Status)
    modifies evbuf
    ensures var h := ReadHeader(old(evbuf.content));
            && (r == UNDEFINED <==> h.BadHeader?) && (r == OK <==> h.Header? && AsInt(h.len) != -1)
            && (r == OK ==> evbuf.content == if h.len <= INT_MAX then h.rest[h.len..] else [])
    ensures SuffixOf(evbuf.content, old(evbuf.content))
  {
    var tag, len;
    r, tag, len := UnmarshalHeader(evbuf);
    if r == OK {
      evbuf.Drain(if 0 <= len then len else |evbuf.content|);
    }
  }

  /** evtag_unmarshal.  A negative length makes it add that much from memory. */
  method Unmarshal(src: Buffer, dst: Buffer) returns (r: Status, tag: nat, len: int)
    requires src != dst
    modifies src, dst
    ensures var h := ReadHeader(old(src.content));
            && (r == OK <==> h.Header? && h.len <= INT_MAX)
            && (r == UNDEFINED <==> h.BadHeader? || (h.Header? && INT_MAX < h.len < U32 - 1))
            && (r == OK ==> tag == h.tag && len == h.len && dst.content == old(dst.content) + h.rest[..len]
                            && src.content == h.rest[len..])
    ensures SuffixOf(src.content, old(src.content))
    ensures r != OK ==> dst.content == old(dst.content)
  {
    r, tag, len := UnmarshalHeader(src);
    if r == OK && len < 0 {
      r := UNDEFINED;
    }
    if r == OK {
      dst.Add(src.content[..len]);
      src.Drain(len);
    }
  }

  /** The record at the beginning of s, if it has the needed tag and a length that fits
      an int: its payload and what follows it */
  function Payload(s: seq<byte>, needTag: nat): Option<(seq<byte>, seq<byte>)> {
    var h := ReadHeader(s);
    if h.Header? && h.tag == needTag && h.len <= INT_MAX then Some((h.rest[..h.len], h.rest[h.len..])) else None
  }

  /** The integer in such a record.  The decoder reads on behind a payload that is too
      short, but then the call fails. */
  function IntPayload(s: seq<byte>, needTag: nat, maxNibbles: nat): Option<(nat, seq<byte>)> {
    var h := ReadHeader(s);
    if !h.Header? || h.tag != needTag then None
    else
      var n := ReadInt(h.rest, maxNibbles);
      if n == None || h.len < n.value.1 then None else Some((n.value.0, h.rest[h.len..]))
  }

  lemma PayloadRoundTrip(tag: nat, data: seq<byte>, rest: seq<byte>)
    requires tag < U32 && |data| <= INT_MAX
    ensures Payload(Record(tag, data) + rest, tag) == Some((data, rest))
  {
    RecordRoundTrip(tag, data, rest);
    assert (data + rest)[..|data|] == data && (data + rest)[|data|..] == rest;
  }

  lemma IntPayloadRoundTrip(tag: nat, n: nat, rest: seq<byte>)
    requires tag < U32
    ensures n < U32 ==> Digits(n) <= 16 && IntPayload(Record(tag, IntCode(n)) + rest, tag, 8) == Some((n, rest))
    ensures n < U64 ==> Digits(n) <= 16 && IntPayload(Record(tag, IntCode(n)) + rest, tag, 16) == Some((n, rest))
  {
    IntRoundTrip(n, rest);
    if n < U64 {
      RecordRoundTrip(tag, IntCode(n), rest);
      assert (IntCode(n) + rest)[|IntCode(n)|..] == rest;
    }
  }

  lemma HeaderIs(s: seq<byte>, tag: nat, used: nat)
    requires ReadTag(s) == Tag(tag, used)
    ensures used <= |s|
    ensures ReadInt(s[used..], 8) == None ==> !ReadHeader(s).Header?
    ensures ReadInt(s[used..], 8).Some? ==>
              var n := ReadInt(s[used..], 8).value;
              && used + n.1 <= |s|
              && ReadHeader(s) == if |s| - used - n.1 < n.0 then NoHeader else Header(tag, n.0, s[used + n.1..])
  {
    ReadTagUsed(s, 0);
  }

  lemma NoHeaderWithoutTag(s: seq<byte>)
    ensures ReadTag(s).NoTag? ==> ReadHeader(s) == NoHeader
    ensures ReadTag(s).Overlong? <==> ReadHeader(s) == BadHeader
  {}

  /** evtag_unmarshal_int (maxNibbles 8), evtag_unmarshal_int64 (maxNibbles 16) */
  method UnmarshalInt(evbuf: Buffer, needTag: nat, maxNibbles: nat) returns (r: Status, n: nat)
    modifies evbuf
    ensures var res := IntPayload(old(evbuf.content), needTag, maxNibbles);
            && (r == OK <==> res.Some?) && (r == UNDEFINED <==> ReadHeader(old(evbuf.content)).BadHeader?)
            && (r == OK ==> n == res.value.0 && evbuf.content == res.value.1)
  {
    hide ReadInt, ReadTag, ReadHeader;
    ghost var s := evbuf.content;
    NoHeaderWithoutTag(s);
    var tag, count, res, len, result;
    n := 0;
    r, tag, count := DecodeTagInternal(evbuf, true);
    if r != OK {
      return;
    }
    HeaderIs(s, tag, count);
    if needTag != tag {
      return FAIL, 0;
    }
    assert evbuf.content[0..] == evbuf.content;
    res, len := DecodeIntInternal(evbuf, 0, 8);
    if res == -1 {
      return FAIL, 0;
    }
    evbuf.Drain(res);
    assert evbuf.content == s[count + res..];
    if |evbuf.content| < len {
      return FAIL, 0;
    }
    assert evbuf.content[0..] == evbuf.content;
    result, n := DecodeIntInternal(evbuf, 0, maxNibbles);
    evbuf.Drain(len);
    if result < 0 || len < result {
      r := FAIL;
    }
  }

  /** evtag_unmarshal_fixed */
  method UnmarshalFixed(src: Buffer, needTag: nat, len: nat) returns (r: Status, data: seq<byte>)
    modifies src
    ensures var res := Payload(old(src.content), needTag);
            && (r == OK <==> res.Some? && |res.value.0| == len)
            && (r == UNDEFINED <==> ReadHeader(old(src.content)).BadHeader?)
            && (r == OK ==> data == res.value.0 && src.content == res.value.1)
  {
    var tag, tagLen;
    data := [];
    r, tag, tagLen := UnmarshalHeader(src);
    if r != OK {
      return;
    }
    if tagLen < 0 || tag != needTag {
      return FAIL, [];
    }
    if tagLen != len {
      return FAIL, [];
    }
    data := src.Remove(len);
  }

  /** evtag_unmarshal_string: the bytes of the payload; the string ends at the first NUL.
      Allocating a negative number of bytes fails. */
  method UnmarshalString(evbuf: Buffer, needTag: nat) returns (r: Status, data: seq<byte>)
    modifies evbuf
    ensures var res := Payload(old(evbuf.content), needTag);
            && (r == OK <==> res.Some?) && (r == UNDEFINED <==> ReadHeader(old(evbuf.content)).BadHeader?)
            && (r == OK ==> data == res.value.0 && evbuf.content == res.value.1)
  {
    var tag, tagLen;
    data := [];
    r, tag, tagLen := UnmarshalHeader(evbuf);
    if r != OK {
      return;
    }
    if tag != needTag || tagLen < 0 {
      return FAIL, [];
    }
    data := evbuf.Remove(tagLen);
  }

  // ----- struct timeval

  /** What evtag_marshal_timeval writes: both parts as 32-bit numbers */
  function TimevalCode(sec: int, usec: int): (s: seq<byte>)
    ensures |s| <= 10
  {
    IntRoundTrip(sec % U32, []);
    IntRoundTrip(usec % U32, []);
    IntCode(sec % U32) + IntCode(usec % U32)
  }

  method MarshalTimeval(evbuf: Buffer, tag: nat, sec: int, usec: int)
    requires tag < U32
    modifies evbuf
    ensures evbuf.content == old(evbuf.content) + Record(tag, TimevalCode(sec, usec))
  {
    var data, len := EncodeIntInternal(sec % U32, 4);
    var data2, len2 := EncodeIntInternal(usec % U32, 4);
    Marshal(evbuf, tag, data[..len] + data2[..len2]);
  }

  /** The two numbers of such a record */
  function TimevalPayload(s: seq<byte>, needTag: nat): Option<(nat, nat, seq<byte>)> {
    var h := ReadHeader(s);
    if !h.Header? || h.tag != needTag then None
    else
      var a := ReadInt(h.rest, 8);
      if a == None then None
      else
        IntUsed(h.rest);
        var b := ReadInt(h.rest[a.value.1..], 8);
        if b == None || h.len < a.value.1 + b.value.1 || INT_MAX < h.len then None
        else Some((a.value.0, b.value.0, h.rest[h.len..]))
  }

  /** A time is read back if both parts are 32-bit numbers, otherwise modulo 2^32. */
  lemma TimevalRoundTrip(tag: nat, sec: int, usec: int, rest: seq<byte>)
    requires tag < U32
    ensures TimevalPayload(Record(tag, TimevalCode(sec, usec)) + rest, tag) == Some((sec % U32, usec % U32, rest))
  {
    hide ReadInt, ReadHeader;
    var code := TimevalCode(sec, usec);
    RecordRoundTrip(tag, code, rest);
    TimevalParts(sec, usec, rest);
    assert (code + rest)[|code|..] == rest;
  }

  /** evtag_unmarshal_timeval */
  method UnmarshalTimeval(evbuf: Buffer, needTag: nat) returns (r: Status, sec: nat, usec: nat)
    modifies evbuf
    ensures var res := TimevalPayload(old(evbuf.content), needTag);
            && (r == OK <==> res.Some?) && (r == UNDEFINED <==> ReadHeader(old(evbuf.content)).BadHeader?)
            && (r == OK ==> sec == res.value.0 && usec == res.value.1 && evbuf.content == res.value.2)
  {
    hide ReadInt, ReadHeader;
    var tag, len, offset, offset2;
    sec, usec := 0, 0;
    r, tag, len := UnmarshalHeader(evbuf);
    if r != OK {
      return;
    }
    r := FAIL;
    if tag == needTag {
      assert evbuf.content[0..] == evbuf.content;
      offset, sec := DecodeIntInternal(evbuf, 0, 8);
      if offset != -1 {
        IntUsed(evbuf.content);
        offset2, usec := DecodeIntInternal(evbuf, offset, 8);
        if offset2 != -1 && offset + offset2 <= len {
          r := OK;
        }
      }
    }
    evbuf.Drain(if 0 <= len then len else |evbuf.content|);
  }

  lemma IntUsed(s: seq<byte>)
    ensures ReadInt(s, 8).Some? ==> ReadInt(s, 8).value.1 <= |s|
  {}

  lemma TimevalParts(s: int, u: int, rest: seq<byte>)
    ensures Digits(s % U32) <= 16 && Digits(u % U32) <= 16
    ensures var a, b := IntCode(s % U32), IntCode(u % U32);
            && ReadInt(TimevalCode(s, u) + rest, 8) == Some((s % U32, |a|))
            && ReadInt((TimevalCode(s, u) + rest)[|a|..], 8) == Some((u % U32, |b|))
  {
    IntRoundTrip(s % U32, []);
    IntRoundTrip(u % U32, rest);
    var a, b := IntCode(s % U32), IntCode(u % U32);
    IntRoundTrip(s % U32, b + rest);
    assert TimevalCode(s, u) + rest == a + (b + rest);
    assert (a + (b + rest))[|a|..] == b + rest;
  }

  // ----- a few codes, byte by byte

  lemma SomeCodes()
    ensures Digits(0x1234) == 4 && IntCode(0x1234) == [0x34, 0x32, 0x10]
    ensures IntCode(0) == [0] && IntCode(5) == [5]
    ensures TagCode(5) == [5] && TagCode(300) == [0xac, 0x02]
    ensures Record(300, [7, 8]) == [0xac, 0x02, 0x02, 7, 8]
  {
    assert Digits(0x1234) == 1 + Digits(0x123) && Digits(0x123) == 1 + Digits(0x12);
    assert Digits(0x12) == 1 + Digits(1) == 2;
    assert Digits(0) == 0 && Digits(5) == 1 && Digits(2) == 1;
    FourDigits();
    assert IntCode(0) == [IntByte(0, 0)] && IntCode(5) == [IntByte(5, 0)] && IntCode(2) == [IntByte(2, 0)];
    assert TagCode(300) == [128 + 300 % 128] + TagCode(2);
    assert Record(300, [7, 8]) == TagCode(300) + IntCode(2) + [7, 8];
  }

  lemma FourDigits()
    requires Digits(0x1234) == 4
    ensures IntCode(0x1234) == [0x34, 0x32, 0x10]
  {
    var n := 0x1234;
    assert Shift(n, 0) == n && Shift(n, 1) == 0x123 && Shift(n, 2) == 0x12 && Shift(n, 3) == 1 && Shift(n, 4) == 0;
    assert IntByte(n, 0) == 0x34 && IntByte(n, 1) == 0x32 && IntByte(n, 2) == 0x10;
    assert IntCode(n) == [IntByte(n, 0), IntByte(n, 1), IntByte(n, 2)];
  }
}
