/** The schema compiler event_rpcgen.py: what the C code that it generates for a struct
    writes and reads, for every schema. */
module RpcGen {
  import opened Bytes
  import opened ByteQueue
  import opened Lists
  import opened Tagging

  /** The type of an entry; Ref names another struct of the schema by its index. */
  datatype Kind = Fixed(len: nat) | Int32 | Int64 | Str | VarBytes | Ref(to: nat)

  datatype Entry = Entry(tag: nat, kind: Kind, optional: bool, isArray: bool)

  type Schema = seq<seq<Entry>>

  /** The data of an entry: bytes or characters, a number, or a nested message */
  datatype Value = Blob(data: seq<byte>) | Num(n: nat) | Sub(msg: Msg)

  /** The values of an entry: none if it is not set, more than one only in an array */
  datatype Field = Field(values: seq<Value>)

  datatype Msg = Msg(fields: seq<Field>)

  // ----- what the compiler accepts

  datatype Result<T> = Ok(value: T) | RpcGenError

  /** Entry.Verify and its overrides, before an array entry is wrapped */
  predicate Verified(e: Entry) {
    && (e.isArray ==> !e.kind.Fixed? && !e.kind.VarBytes?)
    && !(e.optional && e.isArray)
  }

  /** Every kind can be required or optional; numbers, strings and structs can be arrays,
      which are not marked optional. */
  lemma VerifiedKinds(e: Entry)
    ensures !e.isArray ==> Verified(e)
    ensures e.isArray ==>
              (Verified(e) <==> !e.optional && (e.kind.Int32? || e.kind.Int64? || e.kind.Str? || e.kind.Ref?))
  {}

  ghost predicate DistinctTags(entries: seq<Entry>) {
    forall i, j | 0 <= i < j < |entries| :: entries[i].tag != entries[j].tag
  }

  ghost predicate WellFormedStruct(entries: seq<Entry>) {
    DistinctTags(entries) && forall i | 0 <= i < |entries| :: Verified(entries[i])
  }

  /** Struct, with its _entries and _tags */
  class Struct {
    var entries: seq<Entry>
    var tags: set<nat>

    ghost predicate Valid()
      reads this
    {
      WellFormedStruct(entries) && tags == set e | e in entries :: e.tag
    }

    constructor ()
      ensures Valid() && entries == []
    {
      entries, tags := [], {};
    }

    /** The end of ProcessOneEntry: Verify and AddEntry */
    method ProcessEntry(e: Entry) returns (r: Result<()>)
      requires Valid()
      modifies this
      ensures Valid() && entries == if r.Ok? then old(entries) + [e] else old(entries)
      ensures r.Ok? <==> Verified(e) && forall i | 0 <= i < |old(entries)| :: old(entries)[i].tag != e.tag
    {
      if !Verified(e) {
        return RpcGenError;
      }
      if e.tag in tags {
        return RpcGenError;
      }
      entries := entries + [e];
      tags := tags + {e.tag};
      r := Ok(());
    }
  }

  /** Every struct is one that the compiler accepts, tags are 32-bit numbers, and
      references lead to structs. */
  ghost predicate WellFormed(env: Schema) {
    forall s | 0 <= s < |env| :: WellFormedStruct(env[s]) && forall i | 0 <= i < |env[s]| :: EntryOk(env, env[s][i])
  }

  ghost predicate EntryOk(env: Schema, e: Entry) {
    e.tag < U32 && (e.kind.Ref? ==> e.kind.to < |env|)
  }

  /** Message m has the form of struct s. */
  ghost predicate Conforms(env: Schema, s: nat, m: Msg)
    decreases m
  {
    && s < |env| && |m.fields| == |env[s]|
    && forall i | 0 <= i < |m.fields| :: FieldConforms(env, env[s][i], m.fields[i])
  }

  ghost predicate FieldConforms(env: Schema, e: Entry, f: Field)
    decreases f
  {
    && (e.isArray || |f.values| <= 1)
    && forall j | 0 <= j < |f.values| :: ValueConforms(env, e.kind, f.values[j])
  }

  ghost predicate ValueConforms(env: Schema, k: Kind, v: Value)
    decreases v
  {
    match k
    case Fixed(len) => v.Blob? && |v.data| == len
    case Int32 => v.Num? && v.n < U32
    case Int64 => v.Num? && v.n < U64
    case Str => v.Blob? && 0 !in v.data
    case VarBytes => v.Blob?
    case Ref(to) => v.Sub? && Conforms(env, to, v.msg)
  }

  /** <name>_complete: all required entries are set, in nested messages too. */
  predicate Complete(env: Schema, s: nat, m: Msg)
    decreases m
  {
    && s < |env| && |m.fields| == |env[s]|
    && forall i | 0 <= i < |m.fields| :: FieldComplete(env, env[s][i], m.fields[i])
  }

  predicate FieldComplete(env: Schema, e: Entry, f: Field)
    decreases f
  {
    && (e.optional || e.isArray || f.values != [])
    && forall j | 0 <= j < |f.values| :: ValueComplete(env, e.kind, f.values[j])
  }

  predicate ValueComplete(env: Schema, k: Kind, v: Value)
    decreases v
  {
    k.Ref? && v.Sub? ==> Complete(env, k.to, v.msg)
  }

  /** <name>_new */
  function Empty(env: Schema, s: nat): Msg
    requires s < |env|
  {
    Msg(seq(|env[s]|, _ => Field([])))
  }

  // ----- marshaling

  /** A record, as long as its length is a 32-bit number */
  function Rec(tag: nat, data: seq<byte>): seq<byte> {
    if |data| < U32 then Record(tag, data) else []
  }

  /** The payload of a value */
  function PayloadOf(env: Schema, k: Kind, v: Value): seq<byte>
    decreases v, 0
  {
    match v
    case Blob(data) => data
    case Num(n) => if n < U64 then IntOf(n) else []
    case Sub(msg) => if k.Ref? then MarshalFrom(env, k.to, msg, 0) else []
  }

  function IntOf(n: nat): seq<byte>
    requires n < U64
  {
    IntRoundTrip(n, []);
    IntCode(n)
  }

  /** The records of entries i and up */
  function MarshalFrom(env: Schema, s: nat, m: Msg, i: nat): seq<byte>
    decreases m, |m.fields| - i
  {
    if s < |env| && i < |m.fields| && i < |env[s]|
    then MarshalValues(env, env[s][i], m.fields[i], 0) + MarshalFrom(env, s, m, i + 1)
    else []
  }

  /** The records of values j and up of an entry */
  function MarshalValues(env: Schema, e: Entry, f: Field, j: nat): seq<byte>
    decreases f, |f.values| - j
  {
    if j < |f.values| then Rec(e.tag, PayloadOf(env, e.kind, f.values[j])) + MarshalValues(env, e, f, j + 1) else []
  }

  /** Every payload has a length that fits an int. */
  ghost predicate Sized(env: Schema, s: nat, m: Msg)
    decreases m
  {
    && s < |env| && |m.fields| == |env[s]|
    && forall i | 0 <= i < |m.fields| :: FieldSized(env, env[s][i], m.fields[i])
  }

  ghost predicate FieldSized(env: Schema, e: Entry, f: Field)
    decreases f
  {
    forall j | 0 <= j < |f.values| :: ValueSized(env, e.kind, f.values[j])
  }

  ghost predicate ValueSized(env: Schema, k: Kind, v: Value)
    decreases v
  {
    |PayloadOf(env, k, v)| <= INT_MAX && (k.Ref? && v.Sub? ==> Sized(env, k.to, v.msg))
  }

  // ----- unmarshaling

  datatype Outcome<T> = Accepted(value: T) | Rejected | Undefined

  function FindEntry(entries: seq<Entry>, tag: nat): (i: int)
    ensures -1 <= i < |entries|
    ensures i != -1 ==> entries[i].tag == tag
    ensures i == -1 <==> forall j | 0 <= j < |entries| :: entries[j].tag != tag
  {
    if entries == [] then -1
    else if entries[|entries| - 1].tag == tag then |entries| - 1
    else FindEntry(entries[..|entries| - 1], tag)
  }

  function WithValue(m: Msg, i: nat, v: Value): Msg
    requires i < |m.fields|
  {
    Msg(m.fields[i := Field(m.fields[i].values + [v])])
  }

  /** The code for one entry: its value, and what follows its record */
  function ReadValue(env: Schema, e: Entry, bytes: seq<byte>): (r: Outcome<(Value, seq<byte>)>)
    ensures r.Accepted? ==> ReadHeader(bytes).Header? && ReadHeader(bytes).tag == e.tag
    ensures r.Accepted? ==> r.value.1 == ReadHeader(bytes).rest[ReadHeader(bytes).len..] && |r.value.1| < |bytes|
    decreases |bytes|, 0
  {
    if ReadHeader(bytes).BadHeader? then Undefined
    else if e.kind.Int32? then IntValue(IntPayload(bytes, e.tag, 8))
    else if e.kind.Int64? then IntValue(IntPayload(bytes, e.tag, 16))
    else
      var p := Payload(bytes, e.tag);
      if p == None then if e.kind.Ref? && LengthIsWild(ReadHeader(bytes)) then Undefined else Rejected
      else if e.kind.Ref? then SubValue(ReadSub(env, e.kind.to, p.value.0), p.value.1)
      else if e.kind.Fixed? && |p.value.0| != e.kind.len then Rejected
      else Accepted((Blob(if e.kind.Str? then Chars(p.value.0) else p.value.0), p.value.1))
  }

  /** evtag_unmarshal would add a negative number of bytes. */
  predicate LengthIsWild(h: HeaderRead) {
    h.Header? && INT_MAX < h.len < U32 - 1
  }

  /** evtag_unmarshal_<name>, behind the header */
  function ReadSub(env: Schema, to: nat, data: seq<byte>): Outcome<Msg>
    decreases |data|, 2
  {
    if to < |env| then UnmarshalLoop(env, to, Empty(env, to), data) else Rejected
  }

  function SubValue(sub: Outcome<Msg>, rest: seq<byte>): Outcome<(Value, seq<byte>)> {
    match sub
    case Accepted(m) => Accepted((Sub(m), rest))
    case Rejected => Rejected
    case Undefined => Undefined
  }

  function IntValue(p: Option<(nat, seq<byte>)>): Outcome<(Value, seq<byte>)> {
    if p == None then Rejected else Accepted((Num(p.value.0), p.value.1))
  }

  /** <name>_unmarshal, with the fields of m filled so far */
  function UnmarshalLoop(env: Schema, s: nat, m: Msg, bytes: seq<byte>): (r: Outcome<Msg>)
    requires s < |env| && |m.fields| == |env[s]|
    ensures r.Accepted? ==> |r.value.fields| == |env[s]|
    decreases |bytes|, 1
  {
    if bytes == [] then if Complete(env, s, m) then Accepted(m) else Rejected
    else
      match ReadTag(bytes)
      case NoTag => Rejected
      case Overlong => Undefined
      case Tag(tag, _) =>
        var i := FindEntry(env[s], tag);
        if i == -1 then Rejected
        else if !env[s][i].isArray && m.fields[i].values != [] then Rejected
        else
          match ReadValue(env, env[s][i], bytes)
          case Accepted(x) => UnmarshalLoop(env, s, WithValue(m, i, x.0), x.1)
          case Rejected => Rejected
          case Undefined => Undefined
  }

  // ----- unmarshal undoes marshal

  /** m as far as entries below i and the first j values of entry i are concerned */
  function Partial(m: Msg, i: nat, j: nat): (p: Msg)
    requires i < |m.fields| ==> j <= |m.fields[i].values|
    ensures |p.fields| == |m.fields|
  {
    Msg(seq(|m.fields|, k requires 0 <= k < |m.fields| =>
      if k < i then m.fields[k] else if k == i then Field(m.fields[i].values[..j]) else Field([])))
  }

  /** What is still to be read then */
  function Remaining(env: Schema, s: nat, m: Msg, i: nat, j: nat): seq<byte>
    requires s < |env| && |m.fields| == |env[s]| && i <= |m.fields|
  {
    if i < |m.fields| then MarshalValues(env, env[s][i], m.fields[i], j) + MarshalFrom(env, s, m, i + 1) else []
  }

  lemma {:induction false} RoundTripFrom(env: Schema, s: nat, m: Msg, i: nat, j: nat)
    requires WellFormed(env) && Conforms(env, s, m) && Complete(env, s, m) && Sized(env, s, m)
    requires i <= |m.fields| && if i < |m.fields| then j <= |m.fields[i].values| else j == 0
    ensures UnmarshalLoop(env, s, Partial(m, i, j), Remaining(env, s, m, i, j)) == Accepted(m)
    decreases m, |m.fields| - i, if i < |m.fields| then |m.fields[i].values| - j else 0
  {
    hide ReadValue, UnmarshalLoop, MarshalFrom, MarshalValues, PayloadOf, Partial, Remaining, WellFormed, Conforms,
        Complete, Sized;
    Fields(env, s, m, i);
    if i == |m.fields| {
      NoneLeft(env, s, m);
    } else if j == |m.fields[i].values| {
      NextEntry(env, s, m, i);
      RoundTripFrom(env, s, m, i + 1, 0);
    } else {
      var e, v := env[s][i], m.fields[i].values[j];
      ValueRoundTrip(env, e, v, Remaining(env, s, m, i, j + 1));
      RoundTripFrom(env, s, m, i, j + 1);
      OneValue(env, s, m, i, j, Remaining(env, s, m, i, j + 1));
    }
  }

  lemma Fields(env: Schema, s: nat, m: Msg, i: nat)
    requires WellFormed(env) && Conforms(env, s, m) && Complete(env, s, m) && Sized(env, s, m)
    ensures s < |env| && |m.fields| == |env[s]|
    ensures i < |m.fields| ==>
              var e, f := env[s][i], m.fields[i];
              EntryOk(env, e) && FieldConforms(env, e, f) && FieldComplete(env, e, f) && FieldSized(env, e, f)
  {}

  lemma NoneLeft(env: Schema, s: nat, m: Msg)
    requires Complete(env, s, m)
    ensures UnmarshalLoop(env, s, Partial(m, |m.fields|, 0), Remaining(env, s, m, |m.fields|, 0)) == Accepted(m)
  {
    assert Partial(m, |m.fields|, 0).fields == m.fields;
  }

  lemma NextEntry(env: Schema, s: nat, m: Msg, i: nat)
    requires s < |env| && |m.fields| == |env[s]| && i < |m.fields|
    ensures var n := |m.fields[i].values|;
            && Partial(m, i, n) == Partial(m, i + 1, 0)
            && Remaining(env, s, m, i, n) == Remaining(env, s, m, i + 1, 0)
  {
    var n := |m.fields[i].values|;
    assert m.fields[i].values[..n] == m.fields[i].values;
    assert Partial(m, i, n).fields == Partial(m, i + 1, 0).fields by {
      assert i + 1 < |m.fields| ==> m.fields[i + 1].values[..0] == [];
    }
    assert Remaining(env, s, m, i, n) == MarshalFrom(env, s, m, i + 1);
  }

  /** One turn of the loop of <name>_unmarshal */
  lemma OneValue(env: Schema, s: nat, m: Msg, i: nat, j: nat, more: seq<byte>)
    requires WellFormed(env) && s < |env| && |m.fields| == |env[s]| && i < |m.fields| && j < |m.fields[i].values|
    requires FieldConforms(env, env[s][i], m.fields[i]) && ValueSized(env, env[s][i].kind, m.fields[i].values[j])
    requires more == Remaining(env, s, m, i, j + 1)
    requires var e, v := env[s][i], m.fields[i].values[j];
             ReadValue(env, e, Rec(e.tag, PayloadOf(env, e.kind, v)) + more) == Accepted((v, more))
    ensures UnmarshalLoop(env, s, Partial(m, i, j), Remaining(env, s, m, i, j)) ==
            UnmarshalLoop(env, s, Partial(m, i, j + 1), more)
  {
    var e, f := env[s][i], m.fields[i];
    var v := f.values[j];
    var rec := Rec(e.tag, PayloadOf(env, e.kind, v));
    assert EntryOk(env, e) && WellFormedStruct(env[s]);
    Assoc(rec, MarshalValues(env, e, f, j + 1), MarshalFrom(env, s, m, i + 1));
    assert Remaining(env, s, m, i, j) == rec + more;
    RecTag(e.tag, PayloadOf(env, e.kind, v), more);
    FoundEntry(env[s], i);
    assert f.values[..j + 1] == f.values[..j] + [v];
    assert WithValue(Partial(m, i, j), i, v).fields == Partial(m, i, j + 1).fields;
  }

  lemma FoundEntry(entries: seq<Entry>, i: nat)
    requires DistinctTags(entries) && i < |entries|
    ensures FindEntry(entries, entries[i].tag) == i
  {}

  lemma RecTag(tag: nat, data: seq<byte>, rest: seq<byte>)
    requires tag < U32 && |data| < U32
    ensures ReadTag(Rec(tag, data) + rest).Tag? && ReadTag(Rec(tag, data) + rest).number == tag
  {
    IntRoundTrip(|data|, []);
    TagRoundTrip(tag, IntCode(|data|) + data + rest);
    assert Rec(tag, data) + rest == TagCode(tag) + (IntCode(|data|) + data + rest);
  }

  lemma {:induction false} ValueRoundTrip(env: Schema, e: Entry, v: Value, rest: seq<byte>)
    requires WellFormed(env) && EntryOk(env, e)
    requires ValueConforms(env, e.kind, v) && ValueComplete(env, e.kind, v) && ValueSized(env, e.kind, v)
    ensures ReadValue(env, e, Rec(e.tag, PayloadOf(env, e.kind, v)) + rest) == Accepted((v, rest))
    decreases v
  {
    var data := PayloadOf(env, e.kind, v);
    RecordRoundTrip(e.tag, data, rest);
    if e.kind.Int32? || e.kind.Int64? {
      IntPayloadRoundTrip(e.tag, v.n, rest);
    } else {
      PayloadRoundTrip(e.tag, data, rest);
      if e.kind.Ref? {
        RoundTrip(env, e.kind.to, v.msg);
      }
    }
  }

  /** For every schema that the compiler accepts, unmarshaling what was marshaled from a
      complete message gives the message. */
  lemma {:induction false} RoundTrip(env: Schema, s: nat, m: Msg)
    requires WellFormed(env) && Conforms(env, s, m) && Complete(env, s, m) && Sized(env, s, m)
    ensures UnmarshalLoop(env, s, Empty(env, s), MarshalFrom(env, s, m, 0)) == Accepted(m)
    decreases m, |m.fields| + 1
  {
    if 0 < |m.fields| {
      assert m.fields[0].values[..0] == [];
    }
    assert Partial(m, 0, 0).fields == Empty(env, s).fields;
    assert Remaining(env, s, m, 0, 0) == MarshalFrom(env, s, m, 0);
    RoundTripFrom(env, s, m, 0, 0);
  }

  // ----- records in any order

  /** A value for the entry at index i */
  datatype Item = Item(i: nat, v: Value)

  /** Their records, one after another */
  function Records(env: Schema, s: nat, items: seq<Item>): seq<byte> {
    if items == [] then []
    else
      var x := items[0];
      (if s < |env| && x.i < |env[s]| then Rec(env[s][x.i].tag, PayloadOf(env, env[s][x.i].kind, x.v)) else [])
      + Records(env, s, items[1..])
  }

  /** The values for entry i, in order */
  function ValuesOf(items: seq<Item>, i: nat): seq<Value> {
    if items == [] then []
    else (if items[0].i == i then [items[0].v] else []) + ValuesOf(items[1..], i)
  }

  ghost predicate ItemOk(env: Schema, s: nat, x: Item) {
    && s < |env| && x.i < |env[s]|
    && ValueConforms(env, env[s][x.i].kind, x.v) && ValueComplete(env, env[s][x.i].kind, x.v)
    && ValueSized(env, env[s][x.i].kind, x.v)
  }

  /** m with the values of the items behind its own */
  function Filled(m: Msg, items: seq<Item>): (r: Msg)
    ensures |r.fields| == |m.fields|
  {
    Msg(seq(|m.fields|, i requires 0 <= i < |m.fields| => Field(m.fields[i].values + ValuesOf(items, i))))
  }

  ghost predicate AtMostOnce(env: Schema, s: nat, m: Msg) {
    && s < |env| && |m.fields| == |env[s]|
    && forall i | 0 <= i < |env[s]| && !env[s][i].isArray :: |m.fields[i].values| <= 1
  }

  lemma FilledStep(m: Msg, items: seq<Item>)
    requires items != [] && items[0].i < |m.fields|
    ensures Filled(WithValue(m, items[0].i, items[0].v), items[1..]) == Filled(m, items)
  {
    var x, more := items[0], items[1..];
    var a, b := Filled(WithValue(m, x.i, x.v), more), Filled(m, items);
    forall i | 0 <= i < |m.fields| ensures a.fields[i] == b.fields[i] {
      if i == x.i {
        assert (m.fields[i].values + [x.v]) + ValuesOf(more, i) == m.fields[i].values + ([x.v] + ValuesOf(more, i));
      } else {
        assert [] + ValuesOf(more, i) == ValuesOf(more, i);
      }
    }
    assert a.fields == b.fields;
  }

  lemma FilledNothing(m: Msg)
    ensures Filled(m, []) == m
  {
    forall i | 0 <= i < |m.fields| ensures Filled(m, []).fields[i] == m.fields[i] {
      assert m.fields[i].values + [] == m.fields[i].values;
    }
    assert Filled(m, []).fields == m.fields;
  }

  /** One record in any order */
  lemma OneItem(env: Schema, s: nat, m: Msg, x: Item, more: seq<byte>)
    requires WellFormed(env) && s < |env| && |m.fields| == |env[s]| && ItemOk(env, s, x)
    requires env[s][x.i].isArray || m.fields[x.i].values == []
    ensures var e := env[s][x.i];
            UnmarshalLoop(env, s, m, Rec(e.tag, PayloadOf(env, e.kind, x.v)) + more) ==
            UnmarshalLoop(env, s, WithValue(m, x.i, x.v), more)
  {
    var e := env[s][x.i];
    var rec := Rec(e.tag, PayloadOf(env, e.kind, x.v));
    assert EntryOk(env, e) && WellFormedStruct(env[s]);
    ValueRoundTrip(env, e, x.v, more);
    RecTag(e.tag, PayloadOf(env, e.kind, x.v), more);
    FoundEntry(env[s], x.i);
    hide ReadValue, PayloadOf, ValueConforms, ValueComplete, ValueSized;
  }

  lemma {:induction false} AnyOrderFrom(env: Schema, s: nat, m: Msg, items: seq<Item>)
    requires WellFormed(env) && s < |env| && |m.fields| == |env[s]|
    requires forall k | 0 <= k < |items| :: ItemOk(env, s, items[k])
    requires AtMostOnce(env, s, Filled(m, items)) && Complete(env, s, Filled(m, items))
    ensures UnmarshalLoop(env, s, m, Records(env, s, items)) == Accepted(Filled(m, items))
    decreases |items|
  {
    hide UnmarshalLoop, Complete, WellFormed;
    if items == [] {
      FilledNothing(m);
      NoRecords(env, s, m);
    } else {
      var x, more := items[0], items[1..];
      assert ItemOk(env, s, x);
      FilledStep(m, items);
      assert |Filled(m, items).fields[x.i].values| >= |m.fields[x.i].values| + 1;
      OneItem(env, s, m, x, Records(env, s, more));
      AnyOrderFrom(env, s, WithValue(m, x.i, x.v), more);
    }
  }

  lemma NoRecords(env: Schema, s: nat, m: Msg)
    requires s < |env| && |m.fields| == |env[s]| && Complete(env, s, m)
    ensures UnmarshalLoop(env, s, m, []) == Accepted(m)
  {}

  /** Records of right values in any order are accepted, if there is at most one for an
      entry that is no array and one for each required one.  Each entry has its values in
      the order of the records. */
  lemma AnyOrder(env: Schema, s: nat, items: seq<Item>)
    requires WellFormed(env) && s < |env| && forall k | 0 <= k < |items| :: ItemOk(env, s, items[k])
    requires forall i | 0 <= i < |env[s]| && !env[s][i].isArray ::
               |ValuesOf(items, i)| <= 1 && (env[s][i].optional || ValuesOf(items, i) != [])
    ensures var r := UnmarshalLoop(env, s, Empty(env, s), Records(env, s, items));
            && r.Accepted? && |r.value.fields| == |env[s]|
            && forall i | 0 <= i < |env[s]| :: r.value.fields[i].values == ValuesOf(items, i)
  {
    var m := Filled(Empty(env, s), items);
    forall i | 0 <= i < |env[s]|
      ensures m.fields[i].values == ValuesOf(items, i) && FieldComplete(env, env[s][i], m.fields[i])
    {
      assert [] + ValuesOf(items, i) == ValuesOf(items, i);
      ValuesAreComplete(env, s, items, i);
    }
    AnyOrderFrom(env, s, Empty(env, s), items);
  }

  lemma {:induction false} ValuesAreComplete(env: Schema, s: nat, items: seq<Item>, i: nat)
    requires s < |env| && i < |env[s]| && forall k | 0 <= k < |items| :: ItemOk(env, s, items[k])
    ensures forall v | v in ValuesOf(items, i) :: ValueComplete(env, env[s][i].kind, v)
  {
    if items != [] {
      ValuesAreComplete(env, s, items[1..], i);
      assert ItemOk(env, s, items[0]);
    }
  }

  /** Two items for different entries */
  lemma TwoItems(env: Schema, x: Item, y: Item)
    requires |env| == 1 && x.i != y.i && x.i < |env[0]| && y.i < |env[0]|
    ensures Records(env, 0, [x, y]) ==
            Rec(env[0][x.i].tag, PayloadOf(env, env[0][x.i].kind, x.v))
            + Rec(env[0][y.i].tag, PayloadOf(env, env[0][y.i].kind, y.v))
    ensures ValuesOf([x, y], x.i) == [x.v] && ValuesOf([x, y], y.i) == [y.v]
  {
    hide Rec, PayloadOf;
    assert [x, y][1..] == [y] && [y][1..] == [];
    assert Records(env, 0, [y]) == Rec(env[0][y.i].tag, PayloadOf(env, env[0][y.i].kind, y.v)) + Records(env, 0, []);
    assert ValuesOf([y], y.i) == [y.v] + ValuesOf([], y.i) && ValuesOf([y], x.i) == [] + ValuesOf([], x.i);
  }

  /** A struct of two required numbers */
  const TwoNumbers: Schema := [[Entry(1, Int32, false, false), Entry(2, Int32, false, false)]]

  lemma TwoNumbersOk()
    ensures WellFormed(TwoNumbers) && ItemOk(TwoNumbers, 0, Item(1, Num(7))) && ItemOk(TwoNumbers, 0, Item(0, Num(5)))
  {
    IntRoundTrip(5, []);
    IntRoundTrip(7, []);
  }

  /** Its records, written in the other order */
  lemma OtherOrder()
    ensures UnmarshalLoop(TwoNumbers, 0, Empty(TwoNumbers, 0), Rec(2, IntOf(7)) + Rec(1, IntOf(5))) ==
            Accepted(Msg([Field([Num(5)]), Field([Num(7)])]))
  {
    hide UnmarshalLoop, Records, ValuesOf, Rec, WellFormed, ItemOk;
    var env, x, y := TwoNumbers, Item(1, Num(7)), Item(0, Num(5));
    TwoItems(env, x, y);
    TwoNumbersOk();
    AnyOrder(env, 0, [x, y]);
    var r := UnmarshalLoop(env, 0, Empty(env, 0), Records(env, 0, [x, y]));
    assert r.value.fields == [Field([Num(5)]), Field([Num(7)])];
  }

  // ----- what unmarshal accepts

  /** The tags of the records of a message, in order */
  function TagsOf(bytes: seq<byte>): seq<nat>
    decreases |bytes|
  {
    var h := ReadHeader(bytes);
    if h.Header? then [h.tag] + TagsOf(h.rest[h.len..]) else []
  }

  function Count(tags: seq<nat>, tag: nat): nat {
    if tags == [] then 0 else (if tags[0] == tag then 1 else 0) + Count(tags[1..], tag)
  }

  /** Every tag is known, and every entry got as many values as there are records for it. */
  ghost predicate Explained(entries: seq<Entry>, m0: Msg, m: Msg, tags: seq<nat>) {
    && |m0.fields| == |m.fields| == |entries|
    && (forall k | 0 <= k < |tags| :: FindEntry(entries, tags[k]) != -1)
    && forall i | 0 <= i < |entries| :: |m.fields[i].values| == |m0.fields[i].values| + Count(tags, entries[i].tag)
  }

  lemma EmptyConforms(env: Schema, s: nat)
    requires s < |env|
    ensures Conforms(env, s, Empty(env, s))
  {}

  lemma {:induction false} ReadConforms(env: Schema, e: Entry, bytes: seq<byte>)
    requires WellFormed(env) && EntryOk(env, e) && ReadValue(env, e, bytes).Accepted?
    ensures ValueConforms(env, e.kind, ReadValue(env, e, bytes).value.0)
    decreases |bytes|, 0
  {
    var h := ReadHeader(bytes);
    IntBound(h.rest);
    if e.kind.Ref? {
      var data := Payload(bytes, e.tag).value.0;
      EmptyConforms(env, e.kind.to);
      Sound(env, e.kind.to, Empty(env, e.kind.to), data);
    }
  }

  /** What is accepted has the form of the struct, and is complete. */
  lemma {:induction false} Sound(env: Schema, s: nat, m0: Msg, bytes: seq<byte>)
    requires WellFormed(env) && Conforms(env, s, m0) && UnmarshalLoop(env, s, m0, bytes).Accepted?
    ensures var m := UnmarshalLoop(env, s, m0, bytes).value;
            Conforms(env, s, m) && Complete(env, s, m) && Explained(env[s], m0, m, TagsOf(bytes))
    decreases |bytes|, 1
  {
    var m := UnmarshalLoop(env, s, m0, bytes).value;
    if bytes != [] {
      var i: nat := FindEntry(env[s], ReadTag(bytes).number);
      var e := env[s][i];
      assert EntryOk(env, e);
      var x := ReadValue(env, e, bytes).value;
      ReadConforms(env, e, bytes);
      ValueAdded(env, s, m0, i, x.0);
      Sound(env, s, WithValue(m0, i, x.0), x.1);
      ExplainedMore(env[s], m0, i, x.0, m, TagsOf(x.1));
      assert TagsOf(bytes) == [e.tag] + TagsOf(x.1);
    }
  }

  lemma ValueAdded(env: Schema, s: nat, m: Msg, i: nat, v: Value)
    requires Conforms(env, s, m) && i < |m.fields| && ValueConforms(env, env[s][i].kind, v)
    requires env[s][i].isArray || m.fields[i].values == []
    ensures Conforms(env, s, WithValue(m, i, v))
  {
    var m' := WithValue(m, i, v);
    forall k | 0 <= k < |m'.fields| ensures FieldConforms(env, env[s][k], m'.fields[k]) {
      assert FieldConforms(env, env[s][k], m.fields[k]);
    }
  }

  lemma ExplainedMore(entries: seq<Entry>, m0: Msg, i: nat, v: Value, m: Msg, tags: seq<nat>)
    requires i < |entries| == |m0.fields| && DistinctTags(entries)
    requires Explained(entries, WithValue(m0, i, v), m, tags)
    ensures Explained(entries, m0, m, [entries[i].tag] + tags)
  {
    var all := [entries[i].tag] + tags;
    assert all[1..] == tags;
    FoundEntry(entries, i);
    forall k | 0 <= k < |all| ensures FindEntry(entries, all[k]) != -1 {
      assert k != 0 ==> all[k] == tags[k - 1];
    }
    forall k | 0 <= k < |entries| ensures |m.fields[k].values| == |m0.fields[k].values| + Count(all, entries[k].tag) {
      assert k != i ==> entries[k].tag != entries[i].tag;
    }
  }

  /** A message with an unknown tag, a repeated tag of an entry that is no array, or
      without the tag of a required entry is not accepted. */
  lemma NotAccepted(env: Schema, s: nat, bytes: seq<byte>)
    requires WellFormed(env) && s < |env|
    ensures var tags, r := TagsOf(bytes), UnmarshalLoop(env, s, Empty(env, s), bytes);
            && ((exists k | 0 <= k < |tags| :: FindEntry(env[s], tags[k]) == -1) ==> !r.Accepted?)
            && ((exists i | 0 <= i < |env[s]| :: !env[s][i].isArray && 2 <= Count(tags, env[s][i].tag)) ==>
               !r.Accepted?)
            && ((exists i | 0 <= i < |env[s]| ::
                   !env[s][i].isArray && !env[s][i].optional && Count(tags, env[s][i].tag) == 0) ==> !r.Accepted?)
  {
    var r := UnmarshalLoop(env, s, Empty(env, s), bytes);
    if r.Accepted? {
      EmptyConforms(env, s);
      Sound(env, s, Empty(env, s), bytes);
      forall i | 0 <= i < |env[s]|
        ensures FieldConforms(env, env[s][i], r.value.fields[i]) && FieldComplete(env, env[s][i], r.value.fields[i])
      {}
    }
  }

  // ----- the generated code

  /** The code of one entry's CodeMarshal */
  method MarshalValue(env: Schema, e: Entry, v: Value, evbuf: Buffer)
    requires WellFormed(env) && EntryOk(env, e)
    requires ValueConforms(env, e.kind, v) && ValueComplete(env, e.kind, v) && ValueSized(env, e.kind, v)
    modifies evbuf
    ensures evbuf.content == old(evbuf.content) + Rec(e.tag, PayloadOf(env, e.kind, v))
    decreases v, 0
  {
    match e.kind
    case Int32 => Tagging.MarshalInt(evbuf, e.tag, v.n, 4);
    case Int64 => Tagging.MarshalInt(evbuf, e.tag, v.n, 8);
    case Str => Tagging.Marshal(evbuf, e.tag, Chars(v.data));   // evtag_marshal_string
    case Ref(to) =>
      // evtag_marshal_<name>
      var buf := new Buffer();
      MarshalStruct(env, to, v.msg, buf);
      assert buf.content == MarshalFrom(env, to, v.msg, 0);
      Tagging.MarshalBuffer(evbuf, e.tag, buf);
    case Fixed(len) => Tagging.Marshal(evbuf, e.tag, v.data);
    case VarBytes => Tagging.Marshal(evbuf, e.tag, v.data);
  }

  /** <name>_marshal */
  method MarshalStruct(env: Schema, s: nat, m: Msg, evbuf: Buffer)
    requires WellFormed(env) && Conforms(env, s, m) && Complete(env, s, m) && Sized(env, s, m)
    modifies evbuf
    ensures evbuf.content == old(evbuf.content) + MarshalFrom(env, s, m, 0)
    decreases m, |m.fields| + 1
  {
    hide MarshalFrom, MarshalValues, WellFormed, Conforms, Complete, Sized, EntryOk;
    var i := 0;
    ghost var was, all := evbuf.content, MarshalFrom(env, s, m, 0);
    assert was + all == evbuf.content + MarshalFrom(env, s, m, i);
    while i < |m.fields|
      invariant i <= |m.fields| && was + all == evbuf.content + MarshalFrom(env, s, m, i)
    {
      Fields(env, s, m, i);
      var e, f, j := env[s][i], m.fields[i], 0;
      MarshalEntryStep(env, s, m, i);
      ghost var tail := MarshalFrom(env, s, m, i + 1);
      Assoc(evbuf.content, MarshalValues(env, e, f, 0), tail);
      while j < |f.values|
        invariant j <= |f.values| && was + all == evbuf.content + MarshalValues(env, e, f, j) + tail
      {
        ghost var before := evbuf.content;
        MarshalValue(env, e, f.values[j], evbuf);
        MarshalValueStep(env, e, f, j);
        Assoc(before, Rec(e.tag, PayloadOf(env, e.kind, f.values[j])), MarshalValues(env, e, f, j + 1));
        j := j + 1;
      }
      MarshalValueStep(env, e, f, j);
      assert evbuf.content + [] == evbuf.content;
      i := i + 1;
    }
    MarshalEntryStep(env, s, m, i);
    assert evbuf.content + [] == evbuf.content;
  }

  lemma MarshalEntryStep(env: Schema, s: nat, m: Msg, i: nat)
    ensures MarshalFrom(env, s, m, i) ==
      if s < |env| && i < |m.fields| && i < |env[s]|
      then MarshalValues(env, env[s][i], m.fields[i], 0) + MarshalFrom(env, s, m, i + 1)
      else []
  {}

  lemma MarshalValueStep(env: Schema, e: Entry, f: Field, j: nat)
    ensures MarshalValues(env, e, f, j) ==
      if j < |f.values| then Rec(e.tag, PayloadOf(env, e.kind, f.values[j])) + MarshalValues(env, e, f, j + 1) else []
  {}

  function Ended<T>(r: Status): Outcome<T>
    requires r != OK
  {
    if r == FAIL then Rejected else Undefined
  }

  /** The code of one entry's CodeUnmarshal */
  method UnmarshalValue(env: Schema, e: Entry, evbuf: Buffer) returns (r: Outcome<Value>)
    requires WellFormed(env) && EntryOk(env, e)
    modifies evbuf
    ensures match ReadValue(env, e, old(evbuf.content))
            case Accepted(x) => r == Accepted(x.0) && evbuf.content == x.1
            case Rejected => r == Rejected
            case Undefined => r == Undefined
    decreases |evbuf.content|, 0, 1
  {
    hide ReadHeader, ReadTag, ReadInt, Payload, IntPayload;
    var status, n, data;
    match e.kind
    case Int32 =>
      status, n := Tagging.UnmarshalInt(evbuf, e.tag, 8);
      r := if status == OK then Accepted(Num(n)) else Ended(status);
    case Int64 =>
      status, n := Tagging.UnmarshalInt(evbuf, e.tag, 16);
      r := if status == OK then Accepted(Num(n)) else Ended(status);
    case Str =>
      status, data := Tagging.UnmarshalString(evbuf, e.tag);
      r := if status == OK then Accepted(Blob(Chars(data))) else Ended(status);
    case Fixed(len) =>
      status, data := Tagging.UnmarshalFixed(evbuf, e.tag, len);
      r := if status == OK then Accepted(Blob(data)) else Ended(status);
    case VarBytes => r := UnmarshalVarBytes(e.tag, evbuf);
    case Ref(to) => r := UnmarshalNested(env, e, to, evbuf);
  }

  /** CodeUnmarshal of EntryVarBytes */
  method UnmarshalVarBytes(tag: nat, evbuf: Buffer) returns (r: Outcome<Value>)
    modifies evbuf
    ensures var p := Payload(old(evbuf.content), tag);
            && (r == Undefined <==> ReadHeader(old(evbuf.content)).BadHeader?)
            && (r.Accepted? <==> p.Some?)
            && (r.Accepted? ==> r.value == Blob(p.value.0) && evbuf.content == p.value.1)
  {
    LengthFirst(evbuf.content);
    var status, n := Tagging.PayloadLength(evbuf);
    if status != OK {
      return Ended(status);
    }
    if |evbuf.content| < n {
      return Rejected;
    }
    var data;
    status, data := Tagging.UnmarshalFixed(evbuf, tag, n);
    r := if status == OK then Accepted(Blob(data)) else Ended(status);
  }

  /** evtag_unmarshal_<name> */
  method UnmarshalNested(env: Schema, e: Entry, to: nat, evbuf: Buffer) returns (r: Outcome<Value>)
    requires WellFormed(env) && e.kind == Ref(to) && to < |env|
    modifies evbuf
    ensures match ReadValue(env, e, old(evbuf.content))
            case Accepted(x) => r == Accepted(x.0) && evbuf.content == x.1
            case Rejected => r == Rejected
            case Undefined => r == Undefined
    decreases |evbuf.content|, 0, 0
  {
    hide ReadHeader, ReadTag, ReadInt, UnmarshalLoop, WellFormed;
    ghost var h := ReadHeader(evbuf.content);
    var tag, len, status;
    var tmp := new Buffer();
    status, tag, len := Tagging.Unmarshal(evbuf, tmp);
    if status != OK {
      return Ended(status);
    }
    if tag != e.tag {
      return Rejected;
    }
    assert tmp.content == h.rest[..len];
    assert Payload(old(evbuf.content), e.tag) == Some((h.rest[..len], h.rest[len..]));
    assert ReadValue(env, e, old(evbuf.content)) == SubValue(ReadSub(env, to, h.rest[..len]), h.rest[len..]);
    var sub := UnmarshalStruct(env, to, tmp);
    r := match sub case Accepted(m) => Accepted(Sub(m)) case Rejected => Rejected case Undefined => Undefined;
  }

  lemma LengthFirst(s: seq<byte>)
    ensures ReadHeader(s).Header? ==> ReadHeader(s).len <= |s|
    ensures ReadHeader(s).BadHeader? <==> ReadTag(s).Overlong?
    ensures ReadHeader(s).Header? ==> RecordLength(s).Some?
  {
    PeekIsConsumed(s);
  }

  /** <name>_unmarshal, into a new message */
  method UnmarshalStruct(env: Schema, s: nat, evbuf: Buffer) returns (r: Outcome<Msg>)
    requires WellFormed(env) && s < |env|
    modifies evbuf
    ensures r == UnmarshalLoop(env, s, Empty(env, s), old(evbuf.content))
    decreases |evbuf.content|, 1
  {
    hide ReadValue, WellFormed, EntryOk, Complete;
    var m := Empty(env, s);
    ghost var bytes := evbuf.content;
    while 0 < |evbuf.content|
      invariant |m.fields| == |env[s]| && |evbuf.content| <= |bytes|
      invariant UnmarshalLoop(env, s, Empty(env, s), bytes) == UnmarshalLoop(env, s, m, evbuf.content)
      decreases |evbuf.content|
    {
      var status, tag := Tagging.Peek(evbuf);
      if status != OK {
        return Ended(status);
      }
      var i := FindEntry(env[s], tag);
      if i == -1 {
        return Rejected;
      }
      if !env[s][i].isArray && m.fields[i].values != [] {
        return Rejected;
      }
      EntryIsOk(env, s, i);
      var v := UnmarshalValue(env, env[s][i], evbuf);
      match v {
        case Accepted(x) => m := WithValue(m, i, x);
        case Rejected => return Rejected;
        case Undefined => return Undefined;
      }
    }
    r := if Complete(env, s, m) then Accepted(m) else Rejected;
  }

  lemma EntryIsOk(env: Schema, s: nat, i: nat)
    requires WellFormed(env) && s < |env| && i < |env[s]|
    ensures EntryOk(env, env[s][i])
  {}
}
