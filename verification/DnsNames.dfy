/** Names in DNS messages (evdns.c): dnsname_to_labels writes them with the
    compression of section 4.1.4 of RFC 1035, name_parse reads them. */
module DnsNames {
  import opened Bytes

  const DOT: byte := 46
  const MAX_LABELS: nat := 128

  // ----- names as text and as labels

  function FirstDot(s: seq<byte>): (d: nat)
    ensures d <= |s| && (d < |s| ==> s[d] == DOT)
  {
    if s == [] || s[0] == DOT then 0 else 1 + FirstDot(s[1..])
  }

  lemma {:induction false} NoDotBefore(s: seq<byte>)
    ensures forall i | 0 <= i < FirstDot(s) :: s[i] != DOT
  {
    if s != [] && s[0] != DOT {
      NoDotBefore(s[1..]);
    }
  }

  /** The labels of a name, up to the first empty one */
  function Labels(s: seq<byte>): seq<seq<byte>> {
    var d := FirstDot(s);
    if d == 0 then [] else if d == |s| then [s] else [s[..d]] + Labels(s[d + 1..])
  }

  /** No label is empty, except perhaps the last one. */
  predicate Proper(s: seq<byte>) {
    var d := FirstDot(s);
    d == |s| || (0 < d && Proper(s[d + 1..]))
  }

  predicate EndsInDot(s: seq<byte>) {
    s != [] && s[|s| - 1] == DOT
  }

  /** Labels joined by dots */
  function Text(labels: seq<seq<byte>>): seq<byte> {
    if labels == [] then [] else if |labels| == 1 then labels[0] else labels[0] + [DOT] + Text(labels[1..])
  }

  lemma NoText()
    ensures Text([]) == []
  {}

  /** Which names labels stand for */
  lemma {:induction false} TextOfLabels(s: seq<byte>)
    ensures Text(Labels(s)) == s <==> Proper(s) && !EndsInDot(s)
    ensures |Text(Labels(s))| <= |s| && (EndsInDot(s) ==> |Text(Labels(s))| < |s|)
  {
    hide Text, FirstDot;
    var d := FirstDot(s);
    NoDotBefore(s);
    NoText();
    if d == |s| {
      OneText(s, []);
      assert [s] + [] == [s];
    } else if 0 < d {
      var rest := s[d + 1..];
      TextOfLabels(rest);
      TextOfFirst(s[..d], Labels(rest), rest);
      assert s == s[..d] + [DOT] + rest;
      assert rest != [] ==> rest[|rest| - 1] == s[|s| - 1];
    }
  }

  lemma TextOfFirst(first: seq<byte>, labels: seq<seq<byte>>, rest: seq<byte>)
    ensures Text([first] + labels) == if labels == [] then first else first + [DOT] + Text(labels)
    ensures Text([first] + labels) == first + [DOT] + rest <==> labels != [] && Text(labels) == rest
  {
    hide Text;
    OneText(first, labels);
    if labels != [] && Text([first] + labels) == first + [DOT] + rest {
      assert Text(labels) == (first + [DOT] + Text(labels))[|first| + 1..];
      assert rest == (first + [DOT] + rest)[|first| + 1..];
    }
  }

  lemma OneText(first: seq<byte>, labels: seq<seq<byte>>)
    ensures Text([first] + labels) == if labels == [] then first else first + [DOT] + Text(labels)
  {
    assert ([first] + labels)[1..] == labels;
  }

  lemma {:induction false} TextSnoc(labels: seq<seq<byte>>, x: seq<byte>)
    ensures Text(labels + [x]) == if labels == [] then x else Text(labels) + [DOT] + x
  {
    if labels == [] {
    } else {
      assert (labels + [x])[1..] == labels[1..] + [x];
      TextSnoc(labels[1..], x);
      if |labels| > 1 {
        Assoc(labels[0] + [DOT], Text(labels[1..]) + [DOT], x);
        Assoc(labels[0] + [DOT], Text(labels[1..]), [DOT]);
      }
    }
  }

  // ----- reading a name

  /** What is found at a position of a message: a name, nothing valid, or a label of n
      bytes that goes beyond the end, in each case after some labels. */
  datatype Parsed =
    | Name(labels: seq<seq<byte>>)
    | Bad(labels: seq<seq<byte>>)
    | Truncated(labels: seq<seq<byte>>, n: nat)

  function Prefixed(l: seq<seq<byte>>, p: Parsed): Parsed {
    match p
    case Name(m) => Name(l + m)
    case Bad(m) => Bad(l + m)
    case Truncated(m, n) => Truncated(l + m, n)
  }

  function PointerTarget(hi: byte, lo: byte): nat {
    hi % 64 * 256 + lo
  }

  /** Section 4.1.4 of RFC 1035, following at most hops pointers */
  function Parse(pkt: seq<byte>, j: nat, hops: nat): Parsed
    decreases hops, |pkt| - j
  {
    if |pkt| <= j then Bad([])
    else if pkt[j] == 0 then Name([])
    else if 64 <= pkt[j] then
      if j + 1 < |pkt| && PointerTarget(pkt[j], pkt[j + 1]) < |pkt| && 0 < hops
      then Parse(pkt, PointerTarget(pkt[j], pkt[j + 1]), hops - 1) else Bad([])
    else if |pkt| < j + 1 + pkt[j] then Truncated([], pkt[j])
    else Prefixed([pkt[j + 1..j + 1 + pkt[j]]], Parse(pkt, j + 1 + pkt[j], hops))
  }

  /** The position behind the name at j: a pointer ends it. */
  function EndOf(pkt: seq<byte>, j: nat): nat
    decreases |pkt| - j
  {
    if |pkt| <= j then j
    else if pkt[j] == 0 then j + 1
    else if 64 <= pkt[j] then j + 2
    else EndOf(pkt, j + 1 + pkt[j])
  }

  lemma PrefixedTwice(l: seq<seq<byte>>, m: seq<seq<byte>>, p: Parsed)
    ensures Prefixed(l, Prefixed(m, p)) == Prefixed(l + m, p) && Prefixed([], p) == p
  {
    Assoc(l, m, p.labels);
    assert [] + p.labels == p.labels;
  }

  lemma {:induction false} TextGrows(l: seq<seq<byte>>, m: seq<seq<byte>>)
    ensures |Text(l)| <= |Text(l + m)|
    decreases |m|
  {
    if m == [] {
      assert l + m == l;
    } else {
      TextSnoc(l, m[0]);
      TextGrows(l + [m[0]], m[1..]);
      assert l + [m[0]] + m[1..] == l + m;
    }
  }

  /** The length of the text when a label of n bytes follows the given labels */
  function Width(labels: seq<seq<byte>>, n: nat): nat {
    if labels == [] then n else |Text(labels)| + 1 + n
  }

  /** What becomes of a name that has these labels and then one of n bytes */
  lemma TooWide(done: seq<seq<byte>>, lab: seq<byte>, p: Parsed)
    ensures Width(done, |lab|) <= |Text(Prefixed(done + [lab], p).labels)|
    ensures p.Truncated? ==> Width(done, |lab|) <= Width(done + [lab] + p.labels, p.n)
  {
    TextSnoc(done, lab);
    TextGrows(done + [lab], p.labels);
  }

  /** Append a label, behind a dot if it is not the first. */
  method CopyLabel(nameOut: array<byte>, cp: nat, lab: seq<byte>, ghost done: seq<seq<byte>>)
    returns (ok: bool, cp': nat)
    requires cp <= nameOut.Length && nameOut[..cp] == Text(done) && (cp == 0 <==> done == []) && lab != []
    modifies nameOut
    ensures ok <==> Width(done, |lab|) < nameOut.Length
    ensures ok ==> cp' == |Text(done + [lab])| < nameOut.Length && 0 < cp' && nameOut[..cp'] == Text(done + [lab])
  {
    TextSnoc(done, lab);
    ok, cp' := false, cp;
    if cp != 0 {
      if nameOut.Length <= cp + 1 {
        return;
      }
      nameOut[cp] := DOT;
      cp' := cp + 1;
      assert nameOut[..cp'] == Text(done) + [DOT];
    }
    if nameOut.Length <= cp' + |lab| {
      return;
    }
    ghost var before := nameOut[..cp'];
    forall i | 0 <= i < |lab| {
      nameOut[cp' + i] := lab[i];
    }
    assert nameOut[..cp' + |lab|] == before + lab;
    ok, cp' := true, cp' + |lab|;
  }

  /** name_parse.  It ends on every message: each turn uses up a jump or bytes.  It
      reads behind the end of the message exactly if it gets to a label that goes
      beyond the end while the text has room for that label. */
  method NameParse(packet: seq<byte>, idx: nat, nameOut: array<byte>)
    returns (r: int, idx': nat, overread: bool)
    modifies nameOut
    ensures r == 0 || r == -1
    ensures var p := Parse(packet, idx, |packet|);
            && (r == 0 <==> p.Name? && |Text(p.labels)| < nameOut.Length)
            && (r == 0 ==> nameOut[..|Text(p.labels)|] == Text(p.labels) && nameOut[|Text(p.labels)|] == 0)
            && (overread <==> p.Truncated? && Width(p.labels, p.n) < nameOut.Length)
    ensures idx' == if r == 0 then EndOf(packet, idx) else idx
  {
    hide Text, Parse, EndOf;
    var length := |packet|;
    var nameEnd: int := -1;
    var j: nat, ptrCount: nat, cp: nat := idx, 0, 0;
    ghost var done: seq<seq<byte>> := [];
    r, idx', overread := -1, idx, false;
    PrefixedTwice([], [], Parse(packet, idx, length));
    assert Text([]) == [] by { NoText(); }
    while true
      invariant ptrCount <= length && cp <= nameOut.Length && (done != [] ==> cp < nameOut.Length)
      invariant Parse(packet, idx, length) == Prefixed(done, Parse(packet, j, length - ptrCount))
      invariant nameOut[..cp] == Text(done)
      invariant EndOf(packet, idx) == if nameEnd < 0 then EndOf(packet, j) else nameEnd
      invariant -1 <= nameEnd && (cp == 0 <==> done == [])
      invariant r == -1 && idx' == idx && !overread
      decreases length - ptrCount, length - j
    {
      ParseStep(packet, j, length - ptrCount);
      if length <= j {
        return;
      }
      var labelLen := packet[j];
      if labelLen == 0 {
        j := j + 1;
        break;
      }
      if 64 <= labelLen {   // label_len & 0xc0
        if length <= j + 1 {
          return;
        }
        if nameEnd < 0 {
          nameEnd := j + 2;
        }
        j := PointerTarget(labelLen, packet[j + 1]);
        if length <= j {
          return;
        }
        ptrCount := ptrCount + 1;
        if length < ptrCount {
          return;
        }
        continue;
      }
      j := j + 1;
      if length < j + labelLen {
        // the C code copies what is behind the message if there is room, and fails afterwards
        overread := (if cp == 0 then labelLen else cp + 1 + labelLen) < nameOut.Length;
        return;
      }
      var lab := packet[j..j + labelLen];
      ghost var rest := Parse(packet, j + labelLen, length - ptrCount);
      TooWide(done, lab, rest);
      PrefixedTwice(done, [lab], rest);
      var ok;
      ok, cp := CopyLabel(nameOut, cp, lab, done);
      if !ok {
        return;
      }
      done := done + [lab];
      j := j + labelLen;
    }
    assert done + [] == done;
    if nameOut.Length <= cp {
      return;
    }
    nameOut[cp] := 0;
    r, idx' := 0, if nameEnd < 0 then j else nameEnd;
  }

  /** Parse and EndOf, one step */
  lemma ParseStep(pkt: seq<byte>, j: nat, hops: nat)
    ensures Parse(pkt, j, hops) ==
      if |pkt| <= j then Bad([])
      else if pkt[j] == 0 then Name([])
      else if 64 <= pkt[j] then
        if j + 1 < |pkt| && PointerTarget(pkt[j], pkt[j + 1]) < |pkt| && 0 < hops
        then Parse(pkt, PointerTarget(pkt[j], pkt[j + 1]), hops - 1) else Bad([])
      else if |pkt| < j + 1 + pkt[j] then Truncated([], pkt[j])
      else Prefixed([pkt[j + 1..j + 1 + pkt[j]]], Parse(pkt, j + 1 + pkt[j], hops))
    ensures EndOf(pkt, j) ==
      if |pkt| <= j then j
      else if pkt[j] == 0 then j + 1
      else if 64 <= pkt[j] then j + 2
      else EndOf(pkt, j + 1 + pkt[j])
  {}

  /** A one-byte message that announces a label of five bytes: name_parse copies what is
      behind it. */
  lemma ReadsBeyond()
    ensures Parse([5], 0, 1) == Truncated([], 5)
  {}

  /** A name stays what it is when the message grows and more jumps are allowed. */
  lemma {:induction false} ParseMore(pkt: seq<byte>, j: nat, hops: nat, more: seq<byte>, hops': nat)
    requires Parse(pkt, j, hops).Name? && hops <= hops'
    ensures Parse(pkt + more, j, hops') == Parse(pkt, j, hops) && EndOf(pkt + more, j) == EndOf(pkt, j) <= |pkt|
    decreases hops, |pkt| - j
  {
    if pkt[j] == 0 {
    } else if 64 <= pkt[j] {
      ParseMore(pkt, PointerTarget(pkt[j], pkt[j + 1]), hops - 1, more, hops' - 1);
    } else {
      assert (pkt + more)[j + 1..j + 1 + pkt[j]] == pkt[j + 1..j + 1 + pkt[j]];
      ParseMore(pkt, j + 1 + pkt[j], hops, more, hops');
    }
  }

  // ----- the label table

  datatype Entry = Entry(v: seq<byte>, pos: nat)

  /** The position of the first entry for v, or -1 */
  function Lookup(entries: seq<Entry>, v: seq<byte>): (pos: int)
    ensures pos == -1 <==> forall i | 0 <= i < |entries| :: entries[i].v != v
    ensures -1 <= pos && (pos != -1 ==> Entry(v, pos) in entries)
  {
    if entries == [] then -1 else if entries[0].v == v then entries[0].pos else Lookup(entries[1..], v)
  }

  /** struct dnslabel_table */
  class DnslabelTable {
    var labels: seq<Entry>

    constructor ()
      ensures labels == []
    {
      labels := [];
    }

    /** dnslabel_table_get_pos */
    method GetPos(v: seq<byte>) returns (pos: int)
      ensures pos == Lookup(labels, v)
    {
      var i := 0;
      assert labels[0..] == labels;
      while i < |labels|
        invariant i <= |labels| && Lookup(labels, v) == Lookup(labels[i..], v)
      {
        if labels[i].v == v {
          return labels[i].pos;
        }
        i := i + 1;
      }
      pos := -1;
    }

    /** dnslabel_table_add: a full table stays as it is. */
    method Add(v: seq<byte>, pos: nat) returns (r: int)
      modifies this
      ensures r == if |old(labels)| == MAX_LABELS then -1 else 0
      ensures labels == if r == 0 then old(labels) + [Entry(v, pos)] else old(labels)
    {
      if |labels| == MAX_LABELS {
        return -1;
      }
      labels := labels + [Entry(v, pos)];
      r := 0;
    }
  }

  /** What adding entries one after another makes of a table, which a full table ignores */
  ghost function AddAll(entries: seq<Entry>, more: seq<Entry>): seq<Entry>
    decreases |more|
  {
    if more == [] then entries
    else AddAll(if |entries| == MAX_LABELS then entries else entries + [more[0]], more[1..])
  }

  lemma {:induction false} AddAllFits(entries: seq<Entry>, more: seq<Entry>)
    requires |entries| + |more| <= MAX_LABELS
    ensures AddAll(entries, more) == entries + more
    decreases |more|
  {
    if more != [] {
      AddAllFits(entries + [more[0]], more[1..]);
      assert entries + more == entries + [more[0]] + more[1..];
    } else {
      assert entries + more == entries;
    }
  }

  /** The entries for a name that is written at p: what is left of the name, at every label
      before the one from which on it is known */
  ghost function NewEntries(entries: seq<Entry>, name: seq<byte>, p: nat): seq<Entry> {
    var d := FirstDot(name);
    if Lookup(entries, name) != -1 then []
    else if d == |name| then [Entry(name, p)]
    else [Entry(name, p)] + NewEntries(entries, name[d + 1..], p + 1 + d)
  }

  lemma {:induction false} OneNewEntry(entries: seq<Entry>, labels: seq<Entry>, name: seq<byte>, p: nat)
    requires Lookup(entries, name) == -1
    ensures var d := FirstDot(name);
            var more := if d == |name| then [] else NewEntries(entries, name[d + 1..], p + 1 + d);
            AddAll(labels, NewEntries(entries, name, p)) ==
            AddAll(if |labels| == MAX_LABELS then labels else labels + [Entry(name, p)], more)
  {
    var d := FirstDot(name);
    if d < |name| {
      assert ([Entry(name, p)] + NewEntries(entries, name[d + 1..], p + 1 + d))[1..] ==
             NewEntries(entries, name[d + 1..], p + 1 + d);
    }
  }

  lemma {:induction false} NothingNew(entries: seq<Entry>, labels: seq<Entry>, name: seq<byte>, p: nat)
    requires Lookup(entries, name) != -1
    ensures AddAll(labels, NewEntries(entries, name, p)) == labels
  {}

  /** What is written at the position of an entry always reads as the entry itself. */
  ghost predicate EntryOk(buf: seq<byte>, e: Entry) {
    Parse(buf, e.pos, e.pos) == Name(Labels(e.v))
  }

  ghost predicate TableOk(buf: seq<byte>, entries: seq<Entry>) {
    forall e | e in entries :: EntryOk(buf, e)
  }

  ghost predicate InReach(entries: seq<Entry>) {
    forall e | e in entries :: e.pos < 0x4000
  }

  /** htons(ref | 0xc000) */
  function Pointer(ref: nat): (p: seq<byte>)
    ensures |p| == 2 && 192 <= p[0]
  {
    [192 + ref / 256 % 64, ref % 256]
  }

  /** A compression pointer has 14 bits: it leads to pos exactly if pos is below 0x4000. */
  lemma PointerReach(pos: nat)
    ensures var p := Pointer(pos);
            && PointerTarget(p[0], p[1]) == pos % 0x4000
            && (PointerTarget(p[0], p[1]) == pos <==> pos < 0x4000)
  {
    var q, lo := pos / 256, pos % 256;
    assert pos == 256 * q + lo;
    assert q == 64 * (q / 64) + q % 64;
    assert pos == 0x4000 * (q / 64) + (256 * (q % 64) + lo);
  }

  // ----- writing a name

  /** buf has the labels of s from p to q, up to where t begins in s. */
  ghost predicate Laid(buf: seq<byte>, p: nat, s: seq<byte>, q: nat, t: seq<byte>)
    decreases |s|
  {
    && p <= q <= |buf|
    && if p == q then s == t
       else
         var d := FirstDot(s);
         d < |s| && LabelAt(buf, p, s[..d]) && Laid(buf, p + 1 + d, s[d + 1..], q, t)
  }

  /** A length byte and as many bytes of a label */
  ghost predicate LabelAt(buf: seq<byte>, p: nat, name: seq<byte>) {
    && |name| < 64 && p + 1 + |name| <= |buf|
    && buf[p] == |name| && buf[p + 1..p + 1 + |name|] == name
  }

  lemma LabelLonger(buf: seq<byte>, p: nat, name: seq<byte>, more: seq<byte>)
    requires LabelAt(buf, p, name)
    ensures LabelAt(buf + more, p, name)
  {
    SliceOfLonger(buf, more, p + 1, p + 1 + |name|);
  }

  lemma {:induction false} LaidLonger(buf: seq<byte>, p: nat, s: seq<byte>, q: nat, t: seq<byte>, more: seq<byte>)
    requires Laid(buf, p, s, q, t)
    ensures Laid(buf + more, p, s, q, t)
    decreases |s|
  {
    hide FirstDot, LabelAt;
    if p != q {
      var d := FirstDot(s);
      LabelLonger(buf, p, s[..d], more);
      LaidLonger(buf, p + 1 + d, s[d + 1..], q, t, more);
    }
  }

  lemma {:induction false} LaidJoin(buf: seq<byte>, p: nat, s: seq<byte>, q: nat, t: seq<byte>, q': nat, t': seq<byte>)
    requires Laid(buf, p, s, q, t) && Laid(buf, q, t, q', t')
    ensures Laid(buf, p, s, q', t')
    decreases |s|
  {
    hide FirstDot, LabelAt;
    if p != q {
      LaidJoin(buf, p + 1 + FirstDot(s), s[FirstDot(s) + 1..], q, t, q', t');
    }
  }

  /** One more label */
  lemma LaidSnoc(buf: seq<byte>, p: nat, s: seq<byte>, t: seq<byte>)
    requires Laid(buf, p, s, |buf|, t) && FirstDot(t) < |t| && FirstDot(t) < 64
    ensures var d := FirstDot(t);
            Laid(buf + [d] + t[..d], p, s, |buf| + 1 + d, t[d + 1..])
  {
    LaidOne(buf, t);
    hide Laid, FirstDot;
    var d := FirstDot(t);
    LaidLonger(buf, p, s, |buf|, t, [d] + t[..d]);
    Assoc(buf, [d], t[..d]);
    LaidJoin(buf + [d] + t[..d], p, s, |buf|, t, |buf| + 1 + d, t[d + 1..]);
  }

  lemma LaidOne(buf: seq<byte>, t: seq<byte>)
    requires FirstDot(t) < |t| && FirstDot(t) < 64
    ensures var d := FirstDot(t); Laid(buf + [d] + t[..d], |buf|, t, |buf| + 1 + d, t[d + 1..])
  {
    hide FirstDot, Laid, LabelAt;
    var d := FirstDot(t);
    LabelBehind(buf, t[..d]);
    LaidOneIn(buf + [d] + t[..d], |buf|, t);
  }

  lemma LaidOneIn(buf: seq<byte>, q: nat, t: seq<byte>)
    requires FirstDot(t) < |t| && LabelAt(buf, q, t[..FirstDot(t)]) && q + 1 + FirstDot(t) <= |buf|
    ensures var d := FirstDot(t); Laid(buf, q, t, q + 1 + d, t[d + 1..])
  {
    hide FirstDot, LabelAt;
  }

  lemma LabelBehind(a: seq<byte>, lab: seq<byte>)
    requires |lab| < 64
    ensures LabelAt(a + [|lab|] + lab, |a|, lab)
  {
    Behind(a, |lab|, lab);
  }

  lemma Behind<T>(a: seq<T>, x: T, b: seq<T>)
    ensures (a + [x] + b)[|a|] == x && (a + [x] + b)[|a| + 1..|a| + 1 + |b|] == b
  {}

  lemma SliceOfLonger<T>(a: seq<T>, b: seq<T>, i: nat, j: nat)
    requires i <= j <= |a|
    ensures (a + b)[i..j] == a[i..j]
  {}

  /** If what follows reads as the rest of the name, the whole reads as the name. */
  lemma {:induction false} LaidReads(buf: seq<byte>, p: nat, s: seq<byte>, q: nat, t: seq<byte>, hops: nat)
    requires Laid(buf, p, s, q, t) && Parse(buf, q, hops) == Name(Labels(t))
    ensures Parse(buf, p, hops) == Name(Labels(s)) && (Proper(s) ==> Proper(t) && EndOf(buf, p) == EndOf(buf, q))
    decreases |s|
  {
    if p != q {
      LaidReads(buf, p + 1 + FirstDot(s), s[FirstDot(s) + 1..], q, t, hops);
    }
  }

  /** Some name that starts after a dot of s, or s itself, is in the table. */
  predicate KnownSuffix(entries: seq<Entry>, s: seq<byte>) {
    var d := FirstDot(s);
    Lookup(entries, s) != -1 || (d < |s| && KnownSuffix(entries, s[d + 1..]))
  }

  /** Where the loop of dnsname_to_labels stops: at a name that is in the table, at the
      last label, or at a label that is too long. */
  ghost function StopsAt(entries: seq<Entry>, s: seq<byte>): (t: seq<byte>)
    ensures |t| <= |s|
  {
    var d := FirstDot(s);
    if Lookup(entries, s) != -1 || d == |s| || 63 < d then s else StopsAt(entries, s[d + 1..])
  }

  /** Without a long label it stops at a known suffix if there is one. */
  lemma {:induction false} StopFacts(entries: seq<Entry>, s: seq<byte>)
    requires !LongLabel(s)
    ensures KnownSuffix(entries, s) <==> Lookup(entries, StopsAt(entries, s)) != -1
  {
    hide Lookup, FirstDot;
    var d := FirstDot(s);
    if Lookup(entries, s) == -1 && d < |s| {
      StopFacts(entries, s[d + 1..]);
    }
  }

  predicate LongLabel(s: seq<byte>) {
    var d := FirstDot(s);
    63 < d || (d < |s| && LongLabel(s[d + 1..]))
  }

  predicate LastLabelEmpty(s: seq<byte>) {
    s == [] || EndsInDot(s)
  }

  /** The entries added since es stand where their names begin. */
  ghost predicate Pending(base: seq<byte>, es: seq<Entry>, out: seq<byte>, labels: seq<Entry>, rest: seq<byte>) {
    && es <= labels
    && forall e | e in labels[|es|..] :: PendingAt(base, out, e, rest)
  }

  ghost predicate PendingAt(base: seq<byte>, out: seq<byte>, e: Entry, rest: seq<byte>) {
    |base| <= e.pos && |rest| <= |e.v| && Laid(out, e.pos, e.v, |out|, rest)
  }

  /** The state of dnsname_to_labels before the label that rest begins with: base is the
      message before the name and es the table then, out is the message now. */
  ghost predicate Writing(base: seq<byte>, es: seq<Entry>, name: seq<byte>, out: seq<byte>, labels: seq<Entry>,
                          rest: seq<byte>) {
    && base <= out && |out| + |rest| == |base| + |name| && 0 !in rest
    && Pending(base, es, out, labels, rest) && (forall e | e in labels[|es|..] :: |rest| < |e.v|)
    && Laid(out, |base|, name, |out|, rest)
    && KnownSuffix(es, name) == KnownSuffix(es, rest) && LongLabel(name) == LongLabel(rest)
    && LastLabelEmpty(name) == LastLabelEmpty(rest) && StopsAt(es, name) == StopsAt(es, rest)
  }

  lemma WritingStart(base: seq<byte>, es: seq<Entry>, name: seq<byte>)
    requires 0 !in name
    ensures Writing(base, es, name, base, es, name)
  {}

  lemma WritingStep(base: seq<byte>, es: seq<Entry>, name: seq<byte>, out: seq<byte>, labels: seq<Entry>,
                    rest: seq<byte>, labels': seq<Entry>)
    requires Writing(base, es, name, out, labels, rest) && FirstDot(rest) < |rest| && FirstDot(rest) < 64
    requires labels' == labels || labels' == labels + [Entry(rest, |out|)]
    requires Lookup(es, rest) == -1
    ensures var d := FirstDot(rest); Writing(base, es, name, out + [d] + rest[..d], labels', rest[d + 1..])
  {
    hide Laid, KnownSuffix, LongLabel, Lookup, FirstDot, LastLabelEmpty, Pending, StopsAt;
    var d := FirstDot(rest);
    PendingStep(base, es, out, labels, rest, labels');
    LaidSnoc(out, |base|, name, rest);
    SuffixStep(es, rest);
    PrefixLonger(base, out, [d], rest[..d]);
    assert forall b | b in rest[d + 1..] :: b in rest;
  }

  lemma PrefixLonger<T>(a: seq<T>, b: seq<T>, c: seq<T>, d: seq<T>)
    requires a <= b
    ensures a <= b + c + d && |b + c + d| == |b| + |c| + |d|
  {}

  lemma SuffixStep(es: seq<Entry>, s: seq<byte>)
    requires FirstDot(s) < |s| && FirstDot(s) < 64 && Lookup(es, s) == -1
    ensures var s' := s[FirstDot(s) + 1..];
            && KnownSuffix(es, s) == KnownSuffix(es, s') && LongLabel(s) == LongLabel(s')
            && LastLabelEmpty(s) == LastLabelEmpty(s') && StopsAt(es, s) == StopsAt(es, s')
  {
    var s' := s[FirstDot(s) + 1..];
    assert s' != [] ==> s'[|s'| - 1] == s[|s| - 1];
  }

  lemma PendingStep(base: seq<byte>, es: seq<Entry>, out: seq<byte>, labels: seq<Entry>, rest: seq<byte>,
                    labels': seq<Entry>)
    requires base <= out && Pending(base, es, out, labels, rest) && FirstDot(rest) < |rest| && FirstDot(rest) < 64
    requires labels' == labels || labels' == labels + [Entry(rest, |out|)]
    requires forall e | e in labels[|es|..] :: |rest| < |e.v|
    ensures var d := FirstDot(rest);
            && Pending(base, es, out + [d] + rest[..d], labels', rest[d + 1..])
            && forall e | e in labels'[|es|..] :: |rest[d + 1..]| < |e.v|
  {
    hide FirstDot, Laid;
    var d := FirstDot(rest);
    var out', rest' := out + [d] + rest[..d], rest[d + 1..];
    forall e | e in labels'[|es|..] ensures PendingAt(base, out', e, rest') && |rest'| < |e.v| {
      if e !in labels[|es|..] {
        assert e == Entry(rest, |out|);
      }
      EntryStep(base, out, e, rest);
    }
  }

  lemma EntryStep(base: seq<byte>, out: seq<byte>, e: Entry, rest: seq<byte>)
    requires base <= out && (PendingAt(base, out, e, rest) || e == Entry(rest, |out|))
    requires FirstDot(rest) < |rest| && FirstDot(rest) < 64
    ensures var d := FirstDot(rest); PendingAt(base, out + [d] + rest[..d], e, rest[d + 1..])
  {
    hide Laid, FirstDot;
    if e == Entry(rest, |out|) {
      LaidOne(out, rest);
    } else {
      LaidSnoc(out, e.pos, e.v, rest);
    }
  }

  /** An entry that was added for this name is no match for what is left of it. */
  lemma LookupOld(es: seq<Entry>, labels: seq<Entry>, v: seq<byte>)
    requires es <= labels && forall e | e in labels[|es|..] :: |v| < |e.v|
    ensures Lookup(labels, v) == Lookup(es, v)
    decreases |es|
  {
    if es == [] {
      assert labels[0..] == labels;
      assert forall i | 0 <= i < |labels| :: labels[i] in labels;
    } else {
      assert labels[1..][|es| - 1..] == labels[|es|..];
      LookupOld(es[1..], labels[1..], v);
    }
  }

  /** The name at p reads as name, and ends at end if it is proper. */
  ghost predicate NameAt(buf: seq<byte>, p: nat, name: seq<byte>, end: nat) {
    Parse(buf, p, p) == Name(Labels(name)) && (Proper(name) ==> EndOf(buf, p) == end)
  }

  lemma Finish(base: seq<byte>, es: seq<Entry>, name: seq<byte>, out: seq<byte>, labels: seq<Entry>, rest: seq<byte>,
               tail: seq<byte>)
    requires base <= out && Pending(base, es, out, labels, rest) && Laid(out, |base|, name, |out|, rest)
    requires TableOk(base, es)
    requires Parse(out + tail, |out|, |base|) == Name(Labels(rest))
    requires Proper(rest) ==> EndOf(out + tail, |out|) == |out + tail|
    ensures NameAt(out + tail, |base|, name, |out + tail|) && TableOk(out + tail, labels)
  {
    var buf := out + tail;
    LaidLonger(out, |base|, name, |out|, rest, tail);
    LaidReads(buf, |base|, name, |out|, rest, |base|);
    forall e | e in labels ensures EntryOk(buf, e) {
      hide Laid, Parse, EndOf, Labels;
      if e in labels[|es|..] {
        assert PendingAt(base, out, e, rest);
        LaidLonger(out, e.pos, e.v, |out|, rest, tail);
        LaidReads(buf, e.pos, e.v, |out|, rest, |base|);
        ParseMore(buf, e.pos, |base|, [], e.pos);
        assert buf + [] == buf;
      } else {
        assert labels == es + labels[|es|..];
        assert EntryOk(base, e);
        ParseMore(base, e.pos, e.pos, buf[|base|..], e.pos);
        assert base + buf[|base|..] == buf;
      }
    }
  }

  /** A pointer to an entry reads as the entry. */
  lemma PointerReads(base: seq<byte>, es: seq<Entry>, out: seq<byte>, v: seq<byte>)
    requires base <= out && TableOk(base, es) && InReach(es) && Lookup(es, v) != -1
    ensures var ref: nat := Lookup(es, v);
            var tail := Pointer(ref);
            Parse(out + tail, |out|, |base|) == Name(Labels(v)) && EndOf(out + tail, |out|) == |out + tail|
  {
    var ref: nat := Lookup(es, v);
    PointerReach(ref);
    assert EntryOk(base, Entry(v, ref));
    hide Pointer, PointerTarget, Parse, EndOf, Lookup;
    PointerAt(base, ref, Labels(v), out + Pointer(ref), |out|);
  }

  lemma PointerAt(base: seq<byte>, ref: nat, l: seq<seq<byte>>, buf: seq<byte>, q: nat)
    requires base <= buf && |base| <= q && q + 1 < |buf| && 64 <= buf[q] && PointerTarget(buf[q], buf[q + 1]) == ref
    requires Parse(base, ref, ref) == Name(l)
    ensures Parse(buf, q, |base|) == Name(l) && EndOf(buf, q) == q + 2
  {
    ParseStep(base, ref, ref);
    hide Parse, EndOf;
    ParseStep(buf, q, |base|);
    assert base + buf[|base|..] == buf;
    ParseMore(base, ref, ref, buf[|base|..], |base| - 1);
  }

  /** The last label, with the zero behind it unless it is empty, reads as itself. */
  lemma LastReads(out: seq<byte>, rest: seq<byte>, hops: nat)
    requires FirstDot(rest) == |rest| < 64
    ensures var tail := [|rest|] + rest + if rest == [] then [] else [0];
            Parse(out + tail, |out|, hops) == Name(Labels(rest)) && EndOf(out + tail, |out|) == |out + tail|
  {
    var tail := [|rest|] + rest + if rest == [] then [] else [0];
    var buf := out + tail;
    if rest != [] {
      assert buf[|out| + 1..|out| + 1 + |rest|] == rest;
      assert buf[|out| + 1 + |rest|] == 0;
      assert Parse(buf, |out| + 1 + |rest|, hops) == Name([]);
    }
  }

  /** buf[j..] = data */
  method Put(buf: array<byte>, j: nat, data: seq<byte>)
    requires j + |data| <= buf.Length
    modifies buf
    ensures buf[..j + |data|] == old(buf[..j]) + data
    ensures buf[j + |data|..] == old(buf[j + |data|..])
  {
    forall i | 0 <= i < |data| {
      buf[j + i] := data[i];
    }
  }

  ghost function EntriesOf(table: DnslabelTable?): seq<Entry>
    reads table
  {
    if table == null then [] else table.labels
  }

  /** The table is on its way to having all entries for the name: those for what is left
      of it are missing. */
  ghost predicate Entered(es: seq<Entry>, name: seq<byte>, j0: nat, labels: seq<Entry>, rest: seq<byte>, j: nat) {
    AddAll(labels, NewEntries(es, rest, j)) == AddAll(es, NewEntries(es, name, j0))
  }

  /** The loop of dnsname_to_labels: the labels before the last one.  rest is what is
      left of the name, ref the position of an entry for it. */
  method PutLabels(buf: array<byte>, j0: nat, name: seq<byte>, table: DnslabelTable?)
    returns (r: int, j: nat, rest: seq<byte>, ref: int)
    requires 0 !in name && j0 <= buf.Length
    modifies buf, table
    ensures j <= buf.Length && Writing(old(buf[..j0]), old(EntriesOf(table)), name, buf[..j], EntriesOf(table), rest)
    ensures r == 0 || r == -1 || r == -2
    ensures r == -1 ==> FirstDot(rest) > 63
    ensures r == -2 ==> buf.Length < j + FirstDot(rest) + 1 && FirstDot(rest) <= 63 && FirstDot(rest) < |rest|
    ensures r != 0 ==> Lookup(old(EntriesOf(table)), rest) == -1
    ensures r == 0 ==> ref == Lookup(old(EntriesOf(table)), rest) && (ref == -1 ==> FirstDot(rest) == |rest|)
    ensures table != null ==> Entered(old(EntriesOf(table)), name, j0, table.labels, rest, j)
  {
    hide Lookup, FirstDot, KnownSuffix, LongLabel, LastLabelEmpty, Laid, Writing, StopsAt, NewEntries, AddAll;
    r, j, rest, ref := 0, j0, name, -1;
    ghost var base, es := buf[..j0], EntriesOf(table);
    WritingStart(base, es, name);
    while true
      invariant j <= buf.Length && r == 0
      invariant Writing(base, es, name, buf[..j], EntriesOf(table), rest)
      invariant table != null ==> Entered(es, name, j0, table.labels, rest, j)
      decreases |rest|
    {
      OldLookup(base, es, name, buf[..j], EntriesOf(table), rest);
      if table != null {
        ref := table.GetPos(rest);
        if 0 <= ref {
          return;
        }
      }
      ref := -1;
      var d := FirstDot(rest);
      if d == |rest| {
        return;
      }
      if 63 < d {
        return -1, j, rest, ref;
      }
      if buf.Length < j + d + 1 {
        return -2, j, rest, ref;
      }
      ghost var out, labels := buf[..j], EntriesOf(table);
      if table != null {
        var res := table.Add(rest, j);
      }
      OneNewEntry(es, labels, rest, j);
      Put(buf, j, [d]);
      Put(buf, j + 1, rest[..d]);
      WritingStep(base, es, name, out, labels, rest, EntriesOf(table));
      j, rest := j + 1 + d, rest[d + 1..];
    }
  }

  lemma OldLookup(base: seq<byte>, es: seq<Entry>, name: seq<byte>, out: seq<byte>, labels: seq<Entry>, rest: seq<byte>)
    requires Writing(base, es, name, out, labels, rest)
    ensures Lookup(labels, rest) == Lookup(es, rest) && (es == [] ==> Lookup(es, rest) == -1)
  {
    LookupOld(es, labels, rest);
  }

  /** Without a known suffix, a name that is not too long goes in exactly if every label
      and its length byte do. */
  predicate Fits(name: seq<byte>, room: nat) {
    |name| <= 255 && !LongLabel(name) && |name| + 1 <= room
  }

  /** No suffix is known, and the labels fill the room up to its last byte. */
  ghost predicate Overruns(entries: seq<Entry>, name: seq<byte>, room: nat) {
    !KnownSuffix(entries, name) && !LastLabelEmpty(name) && Fits(name, room) && |name| + 1 == room
  }

  /** "a" in a buffer of two bytes */
  lemma OverrunHappens()
    ensures Overruns([], [97], 2)
  {}

  /** dnsname_to_labels, for a name without NUL bytes.  A name that was written reads as
      its labels, as does every entry of the table.  The final zero is written without
      looking whether there is room: it lands behind the buffer exactly if no suffix is
      known and the labels fill the buffer.  If the loop stops at a known suffix, the name
      goes in exactly if what is before it does, and a pointer. */
  method DnsnameToLabels(buf: array<byte>, j0: nat, name: seq<byte>, table: DnslabelTable?)
    returns (r: int, overrun: bool)
    requires 0 !in name && j0 <= buf.Length
    modifies buf, table
    ensures buf[..j0] == old(buf[..j0])
    ensures r == -1 || r == -2 || j0 < r
    ensures r == -1 ==> LongLabel(name)
    ensures r == -2 ==> 255 < |name| || buf.Length < j0 + |name| + 2
    ensures !KnownSuffix(old(EntriesOf(table)), name) ==> (0 <= r <==> Fits(name, buf.Length - j0))
    ensures var t := StopsAt(old(EntriesOf(table)), name);
            if Lookup(old(EntriesOf(table)), t) != -1 then
              && (0 <= r <==> |name| <= 255 && j0 + |name| - |t| + 2 <= buf.Length)
              && (0 <= r ==> r == j0 + |name| - |t| + 2)
            else 0 <= r ==> r == j0 + |name| + if LastLabelEmpty(name) then 1 else 2
    ensures 0 <= r ==> var t := StopsAt(old(EntriesOf(table)), name);
              Lookup(old(EntriesOf(table)), t) != -1 || (FirstDot(t) == |t| <= 63)
    ensures 0 <= r && table != null ==>
              table.labels == AddAll(old(table.labels), NewEntries(old(table.labels), name, j0))
    ensures overrun <==> Overruns(old(EntriesOf(table)), name, buf.Length - j0)
    ensures old(TableOk(buf[..j0], EntriesOf(table))) && old(InReach(EntriesOf(table))) && 0 <= r && !overrun ==>
              r <= buf.Length && NameAt(buf[..r], j0, name, r) && TableOk(buf[..r], EntriesOf(table))
  {
    hide Lookup, FirstDot, KnownSuffix, LongLabel, LastLabelEmpty, Laid, Writing, Pending, NameAt, TableOk, InReach,
      Labels, Parse, EndOf, StopsAt, NewEntries, AddAll;
    ghost var base, es := buf[..j0], EntriesOf(table);
    r, overrun := -2, false;
    if 255 < |name| {
      return;
    }
    var j, rest, ref;
    r, j, rest, ref := PutLabels(buf, j0, name, table);
    ghost var out, labels := buf[..j], EntriesOf(table);
    WritingFacts(base, es, name, out, labels, rest);
    if r != 0 {
      return;
    }
    if 0 <= ref {
      NothingNew(es, labels, rest, j);
      if buf.Length < j + 2 {
        return -2, false;
      }
      ghost var tail := Pointer(ref);
      Put(buf, j, Pointer(ref));
      if TableOk(base, es) && InReach(es) {
        PointerReads(base, es, out, rest);
        Finish(base, es, name, out, labels, rest, tail);
      }
      return j + 2, false;
    }
    LastNewEntry(es, labels, rest, j);
    r, overrun := PutLast(buf, j, rest, table, base, es, name);
  }

  lemma LastNewEntry(es: seq<Entry>, labels: seq<Entry>, rest: seq<byte>, j: nat)
    requires Lookup(es, rest) == -1 && FirstDot(rest) == |rest|
    ensures AddAll(labels, NewEntries(es, rest, j)) ==
            if |labels| == MAX_LABELS then labels else labels + [Entry(rest, j)]
  {
    OneNewEntry(es, labels, rest, j);
  }

  /** The end of dnsname_to_labels: the last label and the final zero */
  method PutLast(buf: array<byte>, j0: nat, rest: seq<byte>, table: DnslabelTable?,
                 ghost base: seq<byte>, ghost es: seq<Entry>, ghost name: seq<byte>)
    returns (r: int, overrun: bool)
    requires j0 <= buf.Length && Writing(base, es, name, buf[..j0], EntriesOf(table), rest) && FirstDot(rest) == |rest|
    modifies buf, table
    ensures r == -1 || r == -2 || j0 < r
    ensures r == -1 <==> 63 < |rest|
    ensures r == -2 <==> |rest| <= 63 && buf.Length < j0 + |rest| + 1
    ensures overrun <==> 0 <= r && rest != [] && j0 + |rest| + 1 == buf.Length
    ensures 0 <= r ==> r == j0 + |rest| + if rest == [] then 1 else 2
    ensures 0 <= r && table != null ==>
              table.labels == if |old(table.labels)| == MAX_LABELS then old(table.labels)
                              else old(table.labels) + [Entry(rest, j0)]
    ensures buf[..j0] == old(buf[..j0])
    ensures TableOk(base, es) && 0 <= r && !overrun ==>
              r <= buf.Length && NameAt(buf[..r], |base|, name, r) && TableOk(buf[..r], EntriesOf(table))
  {
    hide Lookup, FirstDot, KnownSuffix, LongLabel, LastLabelEmpty, Laid, Writing, Pending, NameAt, TableOk, InReach,
      Labels, Parse, EndOf, StopsAt;
    ghost var out, labels := buf[..j0], EntriesOf(table);
    WritingFacts(base, es, name, out, labels, rest);
    r, overrun := -1, false;
    if 63 < |rest| {
      return;
    }
    if buf.Length < j0 + |rest| + 1 {
      return -2, false;
    }
    if table != null {
      var res := table.Add(rest, j0);
    }
    PendingLast(base, es, out, labels, rest, EntriesOf(table));
    Put(buf, j0, [|rest|]);
    Put(buf, j0 + 1, rest);
    r := j0 + 1 + |rest|;
    assert buf[..r] == out + [|rest|] + rest;
    LastByte(out, rest);
    if buf[r - 1] != 0 {
      if buf.Length == r {
        // the C code writes the zero there nevertheless
        return r + 1, true;
      }
      Put(buf, r, [0]);
      r := r + 1;
    }
    if TableOk(base, es) {
      FinishLast(base, es, name, out, EntriesOf(table), rest, buf[..r]);
    }
  }

  lemma FinishLast(base: seq<byte>, es: seq<Entry>, name: seq<byte>, out: seq<byte>, labels: seq<Entry>,
                   rest: seq<byte>, buf: seq<byte>)
    requires base <= out && Pending(base, es, out, labels, rest) && Laid(out, |base|, name, |out|, rest)
    requires TableOk(base, es) && FirstDot(rest) == |rest| < 64
    requires buf == if rest == [] then out + [|rest|] + rest else out + [|rest|] + rest + [0]
    ensures NameAt(buf, |base|, name, |buf|) && TableOk(buf, labels)
  {
    hide Pending, Laid, TableOk, NameAt, FirstDot, Parse, EndOf, Labels;
    var tail := [|rest|] + rest + if rest == [] then [] else [0];
    LastReads(out, rest, |base|);
    assert buf == out + tail;
    Finish(base, es, name, out, labels, rest, tail);
  }

  lemma LastByte(out: seq<byte>, rest: seq<byte>)
    requires 0 !in rest && |rest| < 256
    ensures var laid := out + [|rest|] + rest; laid[|laid| - 1] == 0 <==> rest == []
  {
    if rest != [] {
      assert rest[|rest| - 1] in rest;
    }
  }

  lemma PendingLast(base: seq<byte>, es: seq<Entry>, out: seq<byte>, labels: seq<Entry>, rest: seq<byte>,
                    labels': seq<Entry>)
    requires base <= out && Pending(base, es, out, labels, rest)
    requires labels' == labels || labels' == labels + [Entry(rest, |out|)]
    ensures Pending(base, es, out, labels', rest)
  {
    forall e | e in labels'[|es|..] ensures PendingAt(base, out, e, rest) {
      if e in labels[|es|..] {
        assert PendingAt(base, out, e, rest);
      } else {
        assert e == Entry(rest, |out|);
      }
    }
  }

  lemma WritingFacts(base: seq<byte>, es: seq<Entry>, name: seq<byte>, out: seq<byte>, labels: seq<Entry>,
                     rest: seq<byte>)
    requires Writing(base, es, name, out, labels, rest)
    ensures base <= out && |out| + |rest| == |base| + |name| && 0 !in rest
    ensures Pending(base, es, out, labels, rest) && Laid(out, |base|, name, |out|, rest)
    ensures KnownSuffix(es, name) == KnownSuffix(es, rest) && LongLabel(name) == LongLabel(rest)
    ensures LastLabelEmpty(name) == LastLabelEmpty(rest)
    ensures StopsAt(es, name) == StopsAt(es, rest)
    ensures Lookup(es, rest) != -1 || FirstDot(rest) == |rest| || 63 < FirstDot(rest) ==> StopsAt(es, rest) == rest
    ensures Lookup(es, rest) == -1 && FirstDot(rest) < |rest| && FirstDot(rest) <= 63 ==>
              |StopsAt(es, rest)| < |rest| - FirstDot(rest)
    ensures Lookup(es, rest) != -1 ==> KnownSuffix(es, rest)
    ensures 63 < FirstDot(rest) ==> LongLabel(rest)
    ensures FirstDot(rest) == |rest| ==>
              && (LongLabel(rest) <==> 63 < |rest|) && (LastLabelEmpty(rest) <==> rest == [])
              && (KnownSuffix(es, rest) <==> Lookup(es, rest) != -1)
  {
    hide Pending, Laid, Lookup;
    NoDotBefore(rest);
  }

  // ----- a message with many names

  /** A name that was written is read back from the finished message: its labels, and,
      if it is proper and does not end in a dot, its text and the index behind it. */
  lemma ReadBack(buf: seq<byte>, p: nat, name: seq<byte>, end: nat, more: seq<byte>)
    requires NameAt(buf, p, name, end)
    ensures Parse(buf + more, p, |buf + more|) == Name(Labels(name))
    ensures Proper(name) ==> EndOf(buf + more, p) == end
    ensures Proper(name) && !EndsInDot(name) ==> Text(Labels(name)) == name
  {
    ParseStep(buf, p, p);
    ParseMore(buf, p, p, more, |buf + more|);
    TextOfLabels(name);
  }

  lemma NameAtLater(buf: seq<byte>, p: nat, name: seq<byte>, end: nat, more: seq<byte>)
    requires NameAt(buf, p, name, end)
    ensures NameAt(buf + more, p, name, end)
  {
    ParseMore(buf, p, p, more, p);
  }

  // ----- what compression saves

  /** t is name without some of its first labels. */
  predicate IsSuffix(t: seq<byte>, name: seq<byte>) {
    var d := FirstDot(name);
    t == name || (d < |name| && IsSuffix(t, name[d + 1..]))
  }

  lemma {:induction false} SuffixOfSuffix(s: seq<byte>, t: seq<byte>, name: seq<byte>)
    requires IsSuffix(s, t) && IsSuffix(t, name)
    ensures IsSuffix(s, name)
    decreases |name|
  {
    if t != name {
      SuffixOfSuffix(s, t, name[FirstDot(name) + 1..]);
    }
  }

  function LabelCount(name: seq<byte>): nat {
    var d := FirstDot(name);
    if d == |name| then 1 else 1 + LabelCount(name[d + 1..])
  }

  /** name is what is left of an earlier name from some label on. */
  predicate Shared(names: seq<seq<byte>>, name: seq<byte>) {
    exists i | 0 <= i < |names| :: IsSuffix(name, names[i])
  }

  /** The bytes that a name takes after others: two for a pointer where it goes on like one
      of them, before that a label and its length for each label, and a zero at the end */
  function EncodedSize(names: seq<seq<byte>>, name: seq<byte>): nat {
    var d := FirstDot(name);
    if Shared(names, name) then 2
    else if d < |name| then 1 + d + EncodedSize(names, name[d + 1..])
    else if name == [] then 1
    else |name| + 2
  }

  lemma SharedMore(names: seq<seq<byte>>, name: seq<byte>, t: seq<byte>)
    ensures Shared(names + [name], t) <==> Shared(names, t) || IsSuffix(t, name)
  {
    if Shared(names, t) {
      var i :| 0 <= i < |names| && IsSuffix(t, names[i]);
      assert (names + [name])[i] == names[i];
    }
    if IsSuffix(t, name) {
      assert (names + [name])[|names|] == name;
    }
  }

  /** A name that was written before takes two bytes, and so does each suffix of it. */
  lemma {:induction false} RepeatedName(names: seq<seq<byte>>, i: nat, t: seq<byte>)
    requires i < |names| && IsSuffix(t, names[i])
    ensures EncodedSize(names, t) == 2 && EncodedSize(names, names[i]) == 2
  {}

  /** A name that shares a suffix with an earlier one takes at most what is before that,
      and two bytes; exactly that if it shares no longer one. */
  lemma {:induction false} SharedSuffix(names: seq<seq<byte>>, name: seq<byte>, t: seq<byte>)
    requires IsSuffix(t, name) && Shared(names, t)
    ensures EncodedSize(names, name) <= |name| - |t| + 2
    ensures (forall s :: IsSuffix(s, name) && Shared(names, s) ==> |s| <= |t|) ==>
              EncodedSize(names, name) == |name| - |t| + 2
    decreases |name|
  {
    hide FirstDot, Shared;
    SuffixLength(t, name);
    if Shared(names, name) {
      assert IsSuffix(name, name);
    } else {
      var rest := name[FirstDot(name) + 1..];
      assert forall s :: IsSuffix(s, rest) ==> IsSuffix(s, name);
      SharedSuffix(names, rest, t);
    }
  }

  lemma {:induction false} SuffixLength(t: seq<byte>, name: seq<byte>)
    requires IsSuffix(t, name)
    ensures |t| <= |name|
    decreases |name|
  {
    if t != name {
      SuffixLength(t, name[FirstDot(name) + 1..]);
    }
  }

  /** The table knows just what the names have in them. */
  ghost predicate Knows(entries: seq<Entry>, names: seq<seq<byte>>) {
    forall t :: Lookup(entries, t) != -1 <==> Shared(names, t)
  }

  /** What dnsname_to_labels takes, from where its loop stops */
  lemma {:induction false} SizeOfStop(entries: seq<Entry>, names: seq<seq<byte>>, name: seq<byte>)
    requires Knows(entries, names)
    requires var t := StopsAt(entries, name); Lookup(entries, t) != -1 || FirstDot(t) == |t|
    ensures var t := StopsAt(entries, name);
            EncodedSize(names, name) ==
            if Lookup(entries, t) != -1 then |name| - |t| + 2
            else |name| + if LastLabelEmpty(name) then 1 else 2
    decreases |name|
  {
    hide Lookup, FirstDot, Shared;
    assert Lookup(entries, name) != -1 <==> Shared(names, name);
    var d := FirstDot(name);
    if Lookup(entries, name) == -1 && d < |name| {
      SizeOfStop(entries, names, name[d + 1..]);
      SameEnd(name, name[d + 1..]);
    } else if d == |name| {
      NoDotBefore(name);
    }
  }

  lemma {:induction false} SameEnd(name: seq<byte>, rest: seq<byte>)
    requires FirstDot(name) < |name| && rest == name[FirstDot(name) + 1..]
    ensures LastLabelEmpty(name) == LastLabelEmpty(rest)
  {
    hide FirstDot;
    assert rest != [] ==> rest[|rest| - 1] == name[|name| - 1];
  }

  /** After a name, the table knows the name too. */
  lemma KnowsMore(entries: seq<Entry>, names: seq<seq<byte>>, name: seq<byte>, p: nat)
    requires Knows(entries, names) && |entries| + LabelCount(name) <= MAX_LABELS
    ensures var after := AddAll(entries, NewEntries(entries, name, p));
            && Knows(after, names + [name]) && |after| <= |entries| + LabelCount(name)
  {
    var more := NewEntries(entries, name, p);
    NewEntriesCount(entries, name, p);
    AddAllFits(entries, more);
    forall t ensures Lookup(entries + more, t) != -1 <==> Shared(names + [name], t) {
      NewEntriesAre(entries, names, name, p, t);
      SharedMore(names, name, t);
      LookupPlus(entries, more, t);
    }
  }

  lemma LookupPlus(a: seq<Entry>, b: seq<Entry>, t: seq<byte>)
    ensures Lookup(a + b, t) != -1 <==> Lookup(a, t) != -1 || Lookup(b, t) != -1
  {
    if Lookup(a, t) != -1 {
      var i :| 0 <= i < |a| && a[i].v == t;
      assert (a + b)[i] == a[i];
    }
    if Lookup(b, t) != -1 {
      var i :| 0 <= i < |b| && b[i].v == t;
      assert (a + b)[|a| + i] == b[i];
    }
  }

  lemma {:induction false} NewEntriesStep(entries: seq<Entry>, name: seq<byte>, p: nat)
    ensures var d := FirstDot(name);
            NewEntries(entries, name, p) ==
            if Lookup(entries, name) != -1 then []
            else [Entry(name, p)] + if d < |name| then NewEntries(entries, name[d + 1..], p + 1 + d) else []
  {
    hide Lookup, FirstDot;
  }

  lemma {:induction false} SuffixOfRest(t: seq<byte>, name: seq<byte>)
    ensures IsSuffix(t, name) <==> t == name || (FirstDot(name) < |name| && IsSuffix(t, name[FirstDot(name) + 1..]))
  {
    hide FirstDot;
  }

  lemma {:induction false} NewEntriesCount(entries: seq<Entry>, name: seq<byte>, p: nat)
    ensures |NewEntries(entries, name, p)| <= LabelCount(name)
    decreases |name|
  {
    hide FirstDot, Lookup, NewEntries;
    var d := FirstDot(name);
    NewEntriesStep(entries, name, p);
    if d < |name| {
      NewEntriesCount(entries, name[d + 1..], p + 1 + d);
    }
  }

  /** New entries are for suffixes of the name; every suffix has one, or is known. */
  lemma {:induction false} NewEntriesAre(entries: seq<Entry>, names: seq<seq<byte>>, name: seq<byte>, p: nat,
                                         t: seq<byte>)
    requires Knows(entries, names)
    ensures Lookup(NewEntries(entries, name, p), t) != -1 ==> IsSuffix(t, name)
    ensures IsSuffix(t, name) ==> Lookup(entries, t) != -1 || Lookup(NewEntries(entries, name, p), t) != -1
    decreases |name|
  {
    hide FirstDot, Lookup, Shared, Knows, NewEntries, IsSuffix;
    var d := FirstDot(name);
    NewEntriesStep(entries, name, p);
    SuffixOfRest(t, name);
    NoEntries();
    if Lookup(entries, name) != -1 {
      SuffixesKnown(entries, names, name);
    } else {
      var more := if d < |name| then NewEntries(entries, name[d + 1..], p + 1 + d) else [];
      if d < |name| {
        NewEntriesAre(entries, names, name[d + 1..], p + 1 + d, t);
      }
      LookupFirst(Entry(name, p), more, t);
    }
  }

  lemma NoEntries()
    ensures forall t :: Lookup([], t) == -1
  {}

  lemma {:induction false} LookupFirst(e: Entry, more: seq<Entry>, t: seq<byte>)
    ensures Lookup([e] + more, t) != -1 <==> t == e.v || Lookup(more, t) != -1
  {
    assert ([e] + more)[1..] == more;
  }

  lemma SuffixesKnown(entries: seq<Entry>, names: seq<seq<byte>>, name: seq<byte>)
    requires Knows(entries, names) && Lookup(entries, name) != -1
    ensures forall t :: IsSuffix(t, name) ==> Lookup(entries, t) != -1
  {
    hide Lookup, IsSuffix;
    forall t | IsSuffix(t, name) ensures Lookup(entries, t) != -1 {
      assert Shared(names, name);
      var i :| 0 <= i < |names| && IsSuffix(name, names[i]);
      SuffixOfSuffix(t, name, names[i]);
      assert Shared(names, t);
    }
  }

  /** Part of a message: a name, and bytes that follow it */
  datatype Part = Part(name: seq<byte>, data: seq<byte>)

  ghost predicate AllRead(buf: seq<byte>, parts: seq<Part>, starts: seq<nat>, ends: seq<nat>) {
    && |starts| == |ends| == |parts|
    && forall k | 0 <= k < |parts| ::
         NameAt(buf, starts[k], parts[k].name, ends[k]) && DataAt(buf, ends[k], parts[k].data)
  }

  predicate DataAt(buf: seq<byte>, p: nat, data: seq<byte>) {
    p + |data| <= |buf| && buf[p..p + |data|] == data
  }

  lemma AllReadLater(buf: seq<byte>, parts: seq<Part>, starts: seq<nat>, ends: seq<nat>, more: seq<byte>)
    requires AllRead(buf, parts, starts, ends)
    ensures AllRead(buf + more, parts, starts, ends)
  {
    forall k | 0 <= k < |parts|
      ensures NameAt(buf + more, starts[k], parts[k].name, ends[k]) && DataAt(buf + more, ends[k], parts[k].data)
    {
      NameAtLater(buf, starts[k], parts[k].name, ends[k], more);
      SliceOfLonger(buf, more, ends[k], ends[k] + |parts[k].data|);
    }
  }

  lemma TableOkLater(buf: seq<byte>, entries: seq<Entry>, more: seq<byte>)
    requires TableOk(buf, entries)
    ensures TableOk(buf + more, entries)
  {
    forall e | e in entries ensures EntryOk(buf + more, e) {
      assert EntryOk(buf, e);
      ParseMore(buf, e.pos, e.pos, more, e.pos);
    }
  }

  lemma EntriesInside(buf: seq<byte>, entries: seq<Entry>)
    requires TableOk(buf, entries) && |buf| <= 0x4000
    ensures InReach(entries)
  {
    forall e | e in entries ensures e.pos < 0x4000 {
      assert EntryOk(buf, e);
      ParseStep(buf, e.pos, e.pos);
    }
  }

  /** A name that fits into a message whatever was written before it, if there is room */
  predicate Writable(name: seq<byte>) {
    0 !in name && |name| <= 255 && !LongLabel(name)
  }

  lemma WritableGoesIn(es: seq<Entry>, name: seq<byte>, room: nat)
    requires Writable(name) && |name| + 2 <= room
    ensures KnownSuffix(es, name) <==> Lookup(es, StopsAt(es, name)) != -1
    ensures Fits(name, room) && !Overruns(es, name, room)
  {
    StopFacts(es, name);
  }

  function Size(parts: seq<Part>): nat {
    if parts == [] then 0 else Size(parts[..|parts| - 1]) + PartSize(parts[|parts| - 1])
  }

  function PartSize(part: Part): nat {
    |part.name| + 2 + |part.data|
  }

  lemma {:induction false} SizeOfMore(parts: seq<Part>, k: nat)
    requires k < |parts|
    ensures Size(parts[..k + 1]) == Size(parts[..k]) + PartSize(parts[k]) <= Size(parts)
    ensures Size(parts[..k]) <= Size(parts[..|parts| - 1])
    decreases |parts| - k
  {
    assert parts[..k + 1][..k] == parts[..k];
    if k + 1 < |parts| {
      SizeOfMore(parts, k + 1);
    } else {
      assert parts[..k + 1] == parts;
    }
  }

  /** Pointers can reach what is written before a name that starts at one of these. */
  predicate StartsInReach(starts: seq<nat>) {
    forall k | 0 <= k < |starts| :: starts[k] <= 0x4000
  }

  function Names(parts: seq<Part>): (names: seq<seq<byte>>)
    ensures |names| == |parts| && forall k | 0 <= k < |parts| :: names[k] == parts[k].name
  {
    seq(|parts|, k requires 0 <= k < |parts| => parts[k].name)
  }

  function TotalLabels(parts: seq<Part>): nat {
    if parts == [] then 0 else TotalLabels(parts[..|parts| - 1]) + LabelCount(parts[|parts| - 1].name)
  }

  /** While the names have at most 128 labels, so that the table is not full, each takes
      what it does not share with those before it. */
  ghost predicate Compressed(parts: seq<Part>, starts: seq<nat>, ends: seq<nat>) {
    && |starts| == |ends| <= |parts|
    && forall k | 0 <= k < |starts| && TotalLabels(parts[..k]) <= 128 ::
         ends[k] == starts[k] + EncodedSize(Names(parts[..k]), parts[k].name)
  }

  /** The names and what is between them lie one after another. */
  predicate OneAfterAnother(parts: seq<Part>, starts: seq<nat>, ends: seq<nat>, end: nat) {
    && |starts| == |ends| <= |parts|
    && (if starts == [] then end == 0 else starts[0] == 0 && end == ends[|ends| - 1] + |parts[|ends| - 1].data|)
    && forall k | 0 <= k && k + 1 < |starts| :: starts[k + 1] == ends[k] + |parts[k].data|
  }

  /** The table has what it can have of the names so far. */
  ghost predicate TableKnows(entries: seq<Entry>, parts: seq<Part>) {
    TotalLabels(parts) <= MAX_LABELS ==> Knows(entries, Names(parts)) && |entries| <= TotalLabels(parts)
  }

  lemma KnowsOneMore(entries: seq<Entry>, parts: seq<Part>, k: nat, p: nat, after: seq<Entry>)
    requires k < |parts| && TableKnows(entries, parts[..k])
    requires after == AddAll(entries, NewEntries(entries, parts[k].name, p))
    ensures TableKnows(after, parts[..k + 1])
  {
    assert parts[..k + 1][..k] == parts[..k];
    assert Names(parts[..k + 1]) == Names(parts[..k]) + [parts[k].name];
    if TotalLabels(parts[..k + 1]) <= MAX_LABELS {
      KnowsMore(entries, Names(parts[..k]), parts[k].name, p);
    }
  }

  lemma KnowsNothing()
    ensures TableKnows([], []) && Compressed([], [], []) && Names([]) == []
  {
    NoEntries();
  }

  lemma OneMoreCompressed(entries: seq<Entry>, parts: seq<Part>, starts: seq<nat>, ends: seq<nat>, p: nat, r: nat)
    requires Compressed(parts, starts, ends) && |starts| < |parts| && TableKnows(entries, parts[..|starts|])
    requires var t := StopsAt(entries, parts[|starts|].name);
             && (Lookup(entries, t) != -1 || FirstDot(t) == |t|)
             && r == if Lookup(entries, t) != -1 then p + |parts[|starts|].name| - |t| + 2
                     else p + |parts[|starts|].name| + if LastLabelEmpty(parts[|starts|].name) then 1 else 2
    ensures Compressed(parts, starts + [p], ends + [r])
  {
    hide Knows, EncodedSize, StopsAt, Lookup, FirstDot, TotalLabels, LastLabelEmpty;
    var k := |starts|;
    if TotalLabels(parts[..k]) <= MAX_LABELS {
      SizeOfStop(entries, Names(parts[..k]), parts[k].name);
    }
    forall i | 0 <= i < k + 1 && TotalLabels(parts[..i]) <= 128
      ensures (ends + [r])[i] == (starts + [p])[i] + EncodedSize(Names(parts[..i]), parts[i].name)
    {
      if i < k {
        assert (ends + [r])[i] == ends[i] && (starts + [p])[i] == starts[i];
      }
    }
  }

  lemma StartOfAll(parts: seq<Part>)
    ensures Compressed(parts, [], []) && OneAfterAnother(parts, [], [], 0) && parts[..0] == []
  {}

  lemma OneMoreInPlace(parts: seq<Part>, starts: seq<nat>, ends: seq<nat>, end: nat, r: nat)
    requires OneAfterAnother(parts, starts, ends, end) && |starts| < |parts|
    ensures OneAfterAnother(parts, starts + [end], ends + [r], r + |parts[|starts|].data|)
  {}

  lemma OneMoreStart(starts: seq<nat>, p: nat)
    ensures StartsInReach(starts + [p]) <==> StartsInReach(starts) && p <= 0x4000
  {
    assert forall i | 0 <= i < |starts| :: (starts + [p])[i] == starts[i];
    assert (starts + [p])[|starts|] == p;
  }

  lemma NoStarts()
    ensures StartsInReach([]) && Size([]) == 0
  {}

  /** Any names, with other data between them, written through one table: in the
      finished message all of them read back, however they point at each other, if none
      starts behind what pointers can reach.  Names without a long label go in whenever
      there would be room without compression. */
  method WriteAll(buf: array<byte>, parts: seq<Part>) returns (ok: bool, starts: seq<nat>, ends: seq<nat>, end: nat)
    requires forall k | 0 <= k < |parts| :: 0 !in parts[k].name
    modifies buf
    ensures ok ==> end <= buf.Length && |starts| == |ends| == |parts|
    ensures ok && StartsInReach(starts) ==> AllRead(buf[..end], parts, starts, ends)
    ensures (forall k | 0 <= k < |parts| :: Writable(parts[k].name)) && Size(parts) <= buf.Length ==> ok
    ensures ok ==> forall k | 0 <= k < |parts| :: starts[k] <= Size(parts[..k])
    ensures ok ==> OneAfterAnother(parts, starts, ends, end) && Compressed(parts, starts, ends)
  {
    hide Written, NameAt, TableOk, InReach, LongLabel, KnownSuffix, StopsAt, Lookup, LastLabelEmpty, FirstDot, AddAll,
      NewEntries, Overruns, Size, AllRead, Compressed, OneAfterAnother, StartsInReach;
    var table := new DnslabelTable();
    var k := 0;
    starts, ends, end, ok := [], [], 0, true;
    NothingWritten(parts, buf[..0]);
    while k < |parts|
      invariant k == |starts| <= |parts| && end <= buf.Length && ok && fresh(table)
      invariant Written(buf[..end], table.labels, parts, starts, ends)
    {
      ghost var before, es := buf[..end], table.labels;
      SizeOfMore(parts, k);
      SizeSoFar(before, es, parts, starts, ends);
      if Writable(parts[k].name) && end + |parts[k].name| + 2 <= buf.Length {
        WritableGoesIn(es, parts[k].name, buf.Length - end);
      }
      var r, overrun := DnsnameToLabels(buf, end, parts[k].name, table);
      if r < 0 || overrun || buf.Length < r + |parts[k].data| {
        return false, starts, ends, end;
      }
      ghost var middle := buf[..r];
      Put(buf, r, parts[k].data);
      OneMoreWritten(before, es, parts, starts, ends, middle, table.labels);
      starts, ends, end, k := starts + [end], ends + [r as nat], r + |parts[k].data|, k + 1;
    }
    AllIsWritten(buf[..end], table.labels, parts, starts, ends);
  }

  /** What WriteAll keeps: buf is the message with the first parts. */
  ghost predicate Written(buf: seq<byte>, labels: seq<Entry>, parts: seq<Part>, starts: seq<nat>, ends: seq<nat>) {
    && |starts| == |ends| <= |parts|
    && (StartsInReach(starts) ==> TableOk(buf, labels) && AllRead(buf, parts[..|starts|], starts, ends))
    && |buf| <= Size(parts[..|starts|]) && (forall i | 0 <= i < |starts| :: starts[i] <= Size(parts[..i]))
    && OneAfterAnother(parts, starts, ends, |buf|) && Compressed(parts, starts, ends)
    && TableKnows(labels, parts[..|starts|])
  }

  lemma NothingWritten(parts: seq<Part>, buf: seq<byte>)
    requires buf == []
    ensures Written(buf, [], parts, [], [])
  {
    hide AllRead, Compressed, OneAfterAnother, TableKnows, TableOk, StartsInReach, Size;
    NothingYet(buf);
    NoStarts();
    KnowsNothing();
    StartOfAll(parts);
  }

  lemma SizeSoFar(buf: seq<byte>, labels: seq<Entry>, parts: seq<Part>, starts: seq<nat>, ends: seq<nat>)
    requires Written(buf, labels, parts, starts, ends)
    ensures |starts| == |ends| <= |parts| && |buf| <= Size(parts[..|starts|])
  {}

  lemma AllIsWritten(buf: seq<byte>, labels: seq<Entry>, parts: seq<Part>, starts: seq<nat>, ends: seq<nat>)
    requires Written(buf, labels, parts, starts, ends) && |starts| == |parts|
    ensures |ends| == |parts| && (StartsInReach(starts) ==> AllRead(buf, parts, starts, ends))
    ensures forall k | 0 <= k < |parts| :: starts[k] <= Size(parts[..k])
    ensures OneAfterAnother(parts, starts, ends, |buf|) && Compressed(parts, starts, ends)
  {
    assert parts[..|parts|] == parts;
  }

  lemma OneMoreWritten(before: seq<byte>, es: seq<Entry>, parts: seq<Part>, starts: seq<nat>, ends: seq<nat>,
                       middle: seq<byte>, labels: seq<Entry>)
    requires Written(before, es, parts, starts, ends) && |starts| < |parts| && before <= middle
    requires TableOk(before, es) && InReach(es) ==>
               NameAt(middle, |before|, parts[|starts|].name, |middle|) && TableOk(middle, labels)
    requires var name, t := parts[|starts|].name, StopsAt(es, parts[|starts|].name);
             && (Lookup(es, t) != -1 || FirstDot(t) == |t|) && |t| <= |name|
             && |middle| == |before| + if Lookup(es, t) != -1 then |name| - |t| + 2
                                       else |name| + if LastLabelEmpty(name) then 1 else 2
    requires labels == AddAll(es, NewEntries(es, parts[|starts|].name, |before|))
    ensures Written(middle + parts[|starts|].data, labels, parts, starts + [|before|], ends + [|middle|])
  {
    hide NameAt, TableOk, InReach, AllRead, StopsAt, Lookup, LastLabelEmpty, FirstDot, AddAll, NewEntries, Size,
      Compressed, OneAfterAnother, StartsInReach, TableKnows;
    var k, p, r, data := |starts|, |before|, |middle|, parts[|starts|].data;
    OneMoreStart(starts, p);
    if StartsInReach(starts + [p]) {
      EntriesInside(before, es);
      OneMoreRead(before, middle, data, parts, k, starts, ends, p, r);
      TableOkLater(middle, labels, data);
    }
    SizeOfMore(parts, k);
    KnowsOneMore(es, parts, k, p, labels);
    OneMoreCompressed(es, parts, starts, ends, p, r);
    OneMoreInPlace(parts, starts, ends, p, r);
  }

  /** A name of RFC 1035: labels of 1 to 63 bytes, at most 255 in all, no final dot */
  predicate WellFormed(name: seq<byte>) {
    Writable(name) && Proper(name) && !EndsInDot(name)
  }

  /** name_parse at p gives name, and end as the index behind it. */
  ghost predicate Parses(message: seq<byte>, p: nat, name: seq<byte>, end: nat) {
    && Parse(message, p, |message|) == Name(Labels(name)) && Text(Labels(name)) == name
    && EndOf(message, p) == end
  }

  /** Well-formed names, written with compression into a buffer that is large enough for
      them without, come out of name_parse as they went in, each with the index of the
      bytes that follow it; also when more bytes follow the message. */
  method RoundTrip(buf: array<byte>, parts: seq<Part>, more: seq<byte>)
    returns (results: seq<int>, texts: seq<seq<byte>>, next: seq<nat>, starts: seq<nat>, ends: seq<nat>, end: nat)
    requires Size(parts) <= buf.Length && (parts != [] ==> Size(parts[..|parts| - 1]) <= 0x4000)
    requires forall k | 0 <= k < |parts| :: WellFormed(parts[k].name)
    modifies buf
    ensures |results| == |texts| == |next| == |starts| == |ends| == |parts| && end <= buf.Length
    ensures AllRead(buf[..end], parts, starts, ends)
    ensures OneAfterAnother(parts, starts, ends, end) && Compressed(parts, starts, ends)
    ensures forall k | 0 <= k < |parts| :: Parses(buf[..end] + more, starts[k], parts[k].name, ends[k])
    ensures forall k | 0 <= k < |parts| :: results[k] == 0 && texts[k] == parts[k].name && next[k] == ends[k]
  {
    hide NameAt, AllRead, LongLabel, Proper, EndsInDot, DataAt, Parses, Size, StartsInReach, Compressed,
      OneAfterAnother;
    var ok;
    ok, starts, ends, end := WriteAll(buf, parts);
    InReachIfSmall(parts, starts);
    var message := buf[..end];
    results, texts, next := [], [], [];
    var out := new byte[256];
    for k := 0 to |parts|
      invariant |results| == |texts| == |next| == k && fresh(out) && out.Length == 256 && buf[..end] == message
      invariant forall i | 0 <= i < k :: Parses(message + more, starts[i], parts[i].name, ends[i])
      invariant forall i | 0 <= i < k :: results[i] == 0 && texts[i] == parts[i].name && next[i] == ends[i]
    {
      OneOfAll(message, parts, starts, ends, k);
      ParsesBack(message, starts[k], parts[k].name, ends[k], more);
      var r, text, idx := ParseName(message + more, starts[k], parts[k].name, ends[k], out);
      results, texts, next := results + [r], texts + [text], next + [idx];
    }
  }

  /** name_parse on a well-formed name */
  method ParseName(message: seq<byte>, p: nat, ghost name: seq<byte>, ghost end: nat, out: array<byte>)
    returns (r: int, text: seq<byte>, idx: nat)
    requires Parses(message, p, name, end) && |name| < out.Length && 0 !in name
    modifies out
    ensures r == 0 && text == name && idx == end
  {
    hide Text, Parse, EndOf, Labels;
    var overread;
    r, idx, overread := NameParse(message, p, out);
    var n := 0;
    ghost var laid := out[..|name|];
    text := [];
    while out[n] != 0
      invariant n <= |name| && text == out[..n] && out[..|name|] == laid == name && out[|name|] == 0 && 0 !in name
      decreases |name| - n
    {
      text, n := text + [out[n]], n + 1;
    }
  }

  lemma ParsesBack(message: seq<byte>, p: nat, name: seq<byte>, end: nat, more: seq<byte>)
    requires NameAt(message, p, name, end) && WellFormed(name)
    ensures Parses(message + more, p, name, end)
  {
    hide Text, Parse, EndOf, Labels, NameAt, Proper, EndsInDot;
    ReadBack(message, p, name, end, more);
  }

  lemma InReachIfSmall(parts: seq<Part>, starts: seq<nat>)
    requires |starts| == |parts| && (parts != [] ==> Size(parts[..|parts| - 1]) <= 0x4000)
    requires forall k | 0 <= k < |parts| :: starts[k] <= Size(parts[..k])
    ensures StartsInReach(starts)
  {
    forall k | 0 <= k < |parts| ensures starts[k] <= 0x4000 {
      SizeOfMore(parts, k);
    }
  }

  lemma OneOfAll(buf: seq<byte>, parts: seq<Part>, starts: seq<nat>, ends: seq<nat>, k: nat)
    requires AllRead(buf, parts, starts, ends) && k < |parts|
    ensures |starts| == |ends| == |parts|
    ensures NameAt(buf, starts[k], parts[k].name, ends[k]) && DataAt(buf, ends[k], parts[k].data)
  {}

  lemma NothingYet(buf: seq<byte>)
    ensures TableOk(buf, []) && AllRead(buf, [], [], [])
  {}

  lemma OneMoreRead(before: seq<byte>, middle: seq<byte>, data: seq<byte>, parts: seq<Part>, k: nat,
                    starts: seq<nat>, ends: seq<nat>, start: nat, end: nat)
    requires k < |parts| && before <= middle && AllRead(before, parts[..k], starts, ends)
    requires NameAt(middle, start, parts[k].name, end) && end == |middle| && data == parts[k].data
    ensures AllRead(middle + data, parts[..k + 1], starts + [start], ends + [end])
  {
    assert before + middle[|before|..] == middle;
    AllReadLater(before, parts[..k], starts, ends, middle[|before|..]);
    AllReadLater(middle, parts[..k], starts, ends, data);
    NameAtLater(middle, start, parts[k].name, end, data);
  }
}
