/** Fields of a message: writing them one after the other, and decodeUnityFields, which hands each one to
    a callback that fills in the receiver. */
module UnityFields {
  import opened Options
  import opened Binary
  import opened UnityWire

  /** A field as the callback sees it: bytes for wire types 1, 2 and 5, a number for wire type 0. */
  datatype Field = Field(num: nat, wire: nat, value: seq<byte>, number: nat)

  /** The receiver after decoding, and the error that ended it, if any. */
  datatype Decoded<M> = Decoded(msg: M, err: Option<WireError>)

  type Callback<!M> = (M, Field) -> Decoded<M>

  // Writing

  function Tag(num: nat, wire: nat): byte { (num * 8 + wire) % 256 }

  function VarintField(num: nat, value: nat): seq<byte> { [Tag(num, 0)] + Varint(value) }

  function Fixed32Field(num: nat, bits: uint32): seq<byte> { [Tag(num, 5)] + PutU32(bits) }

  function BytesField(num: nat, value: seq<byte>): seq<byte> { [Tag(num, 2)] + Varint(|value|) + value }

  /** appendVarint, whose loop is that of appendVarintValue after the tag. */
  method AppendVarint(data: seq<byte>, num: nat, value: uint64) returns (out: seq<byte>)
    ensures out == data + VarintField(num, value)
  {
    out := data + [Tag(num, 0)];
    var v: nat := value;
    while v >= 0x80
      invariant out + Varint(v) == data + VarintField(num, value)
    {
      out := out + [v % 0x80 + 0x80];
      v := v / 0x80;
    }
    out := out + [v];
  }

  method AppendBytes(data: seq<byte>, num: nat, value: seq<byte>) returns (out: seq<byte>)
    requires |value| < TWO64
    ensures out == data + BytesField(num, value)
  {
    out := data + [Tag(num, 2)];
    out := AppendVarintValue(out, |value|);
    out := out + value;
  }

  // Reading

  /** The value part of a field with this tag; used counts the bytes after the tag. */
  function ReadValue(num: nat, wire: nat, s: seq<byte>): Reading<Field> {
    if num == 0 then Malformed(BadFieldNumber)
    else if wire == 0 then
      match ReadVarint(s) case Malformed(e) => Malformed(e) case Read(v, used) => Read(Field(num, 0, [], v), used)
    else if wire == 1 then
      if |s| < 8 then Malformed(Fixed64Incomplete) else Read(Field(num, 1, s[..8], 0), 8)
    else if wire == 2 then
      match ReadVarint(s)
      case Malformed(e) => Malformed(e)
      case Read(n, used) =>
        if used > |s| || n > |s| - used then Malformed(BytesIncomplete)
        else Read(Field(num, 2, s[used..used + n], 0), used + n)
    else if wire == 5 then
      if |s| < 4 then Malformed(Fixed32Incomplete) else Read(Field(num, 5, s[..4], 0), 4)
    else Malformed(UnsupportedWireType)
  }

  /** One field from the front of s. */
  function ReadField(s: seq<byte>): Reading<Field> {
    match ReadVarint(s)
    case Malformed(e) => Malformed(e)
    case Read(tag, used) =>
      if used > |s| then Malformed(VarintIncomplete)
      else
        match ReadValue(tag / 8, tag % 8, s[used..])
        case Malformed(e) => Malformed(e)
        case Read(f, n) => Read(f, used + n)
  }

  lemma ReadValueBounds(num: nat, wire: nat, s: seq<byte>)
    ensures var r := ReadValue(num, wire, s); r.Read? ==> 0 < r.used <= |s|
  {
    VarintMeaning(s);
  }

  /** A field takes at least one byte and never reaches past the end. */
  lemma ReadFieldBounds(s: seq<byte>)
    ensures ReadField(s).Read? ==> 0 < ReadField(s).used <= |s|
    ensures ReadField(s) != Malformed(VarintTooLong)
  {
    VarintMeaning(s);
    var r := ReadVarint(s);
    if r.Read? {
      VarintMeaning(s[r.used..]);
      ReadValueBounds(r.value / 8, r.value % 8, s[r.used..]);
    }
  }

  /** The fields in s up to its end or the first malformed one. */
  function ParseFields(s: seq<byte>): (r: (seq<Field>, Option<WireError>))
    decreases |s|
  {
    if s == [] then ([], None)
    else
      match ReadField(s)
      case Malformed(e) => ([], Some(e))
      case Read(f, used) =>
        if 0 < used <= |s| then
          var (fields, err) := ParseFields(s[used..]);
          ([f] + fields, err)
        else ([], None)
  }

  predicate WellFormed(s: seq<byte>) { ParseFields(s).1.None? }

  /** The callback over a list of fields, stopping at its first error. */
  function Fold<M>(fields: seq<Field>, msg: M, callback: Callback<M>): Decoded<M> {
    if fields == [] then Decoded(msg, None)
    else
      var d := callback(msg, fields[0]);
      if d.err.Some? then d else Fold(fields[1..], d.msg, callback)
  }

  /** What decodeUnityFields does to a receiver. */
  function Decode<M>(s: seq<byte>, msg: M, callback: Callback<M>): Decoded<M> {
    var (fields, err) := ParseFields(s);
    var d := Fold(fields, msg, callback);
    if d.err.Some? then d else Decoded(d.msg, err)
  }

  /** decodeUnityFields: offsets strictly grow and stay in bounds, and the receiver is that of Decode. */
  method DecodeUnityFields<M>(data: seq<byte>, receiver: M, callback: Callback<M>)
      returns (msg: M, err: Option<WireError>)
    ensures Decoded(msg, err) == Decode(data, receiver, callback)
  {
    hide ReadVarint;
    msg := receiver;
    var offset := 0;
    while offset < |data|
      invariant offset <= |data|
      invariant Decode(data, receiver, callback) == Decode(data[offset..], msg, callback)
      decreases |data| - offset
    {
      var before := offset;
      ghost var suffix := data[before..];
      ReadFieldBounds(suffix);
      DecodeStep(suffix, msg, callback);
      var tag, next := ReadUnityVarint(data, offset);
      if tag.Malformed? {
        return msg, Some(tag.error);
      }
      offset := next;
      assert data[offset..] == suffix[tag.used..];
      var num, wire := tag.value / 8, tag.value % 8;
      if num == 0 {
        return msg, Some(BadFieldNumber);
      }
      var value: seq<byte>, number := [], 0;
      match wire {
        case 0 =>
          var r, end := ReadUnityVarint(data, offset);
          if r.Malformed? {
            return msg, Some(r.error);
          }
          number, offset := r.value, end;
        case 1 =>
          if offset + 8 > |data| {
            return msg, Some(Fixed64Incomplete);
          }
          value, offset := data[offset..offset + 8], offset + 8;
          assert value == suffix[tag.used..][..8];
        case 2 =>
          var r, end := ReadUnityVarint(data, offset);
          if r.Malformed? {
            return msg, Some(r.error);
          }
          offset := end;
          if r.value > |data| - offset {
            return msg, Some(BytesIncomplete);
          }
          value, offset := data[offset..offset + r.value], offset + r.value;
          assert value == suffix[tag.used..][r.used..r.used + r.value];
        case 5 =>
          if offset + 4 > |data| {
            return msg, Some(Fixed32Incomplete);
          }
          value, offset := data[offset..offset + 4], offset + 4;
          assert value == suffix[tag.used..][..4];
        case _ =>
          return msg, Some(UnsupportedWireType);
      }
      assert ReadField(suffix) == Read(Field(num, wire, value, number), offset - before);
      assert data[offset..] == suffix[offset - before..];
      var d := callback(msg, Field(num, wire, value, number));
      msg := d.msg;
      if d.err.Some? {
        return msg, d.err;
      }
    }
    err := None;
  }

  /** One turn of the decoding loop. */
  lemma DecodeStep<M>(s: seq<byte>, msg: M, callback: Callback<M>)
    requires s != []
    ensures match ReadField(s)
            case Malformed(e) => Decode(s, msg, callback) == Decoded(msg, Some(e))
            case Read(f, used) =>
              0 < used <= |s| &&
              var d := callback(msg, f);
              Decode(s, msg, callback) == if d.err.Some? then d else Decode(s[used..], d.msg, callback)
  {
    hide ReadField;
    ReadFieldBounds(s);
    var r := ReadField(s);
    if r.Read? {
      var rest := ParseFields(s[r.used..]).0;
      assert ([r.value] + rest)[1..] == rest;
    }
  }

  // Composition

  lemma {:induction false} ReadGroupsLocal(s: seq<byte>, index: nat, rest: seq<byte>)
    requires ReadGroups(s, index).Read?
    ensures ReadGroups(s + rest, index) == ReadGroups(s, index)
    decreases |s|
  {
    if s[0] >= 0x80 {
      ReadGroupsLocal(s[1..], index + 1, rest);
      assert (s + rest)[1..] == s[1..] + rest;
    }
  }

  /** A complete field reads the same whatever follows it. */
  lemma ReadFieldLocal(s: seq<byte>, rest: seq<byte>)
    requires ReadField(s).Read?
    ensures ReadField(s + rest) == ReadField(s)
  {
    ReadGroupsLocal(s, 0, rest);
    VarintMeaning(s);
    var tag := ReadVarint(s);
    var t := s[tag.used..];
    assert (s + rest)[tag.used..] == t + rest;
    var num, wire := tag.value / 8, tag.value % 8;
    if wire == 0 || wire == 2 {
      ReadGroupsLocal(t, 0, rest);
      VarintMeaning(t);
    }
    assert ReadValue(num, wire, t + rest) == ReadValue(num, wire, t) by {
      if wire == 2 {
        var r := ReadVarint(t);
        assert (t + rest)[r.used..r.used + r.value] == t[r.used..r.used + r.value];
      } else if wire == 1 {
        assert (t + rest)[..8] == t[..8];
      } else if wire == 5 {
        assert (t + rest)[..4] == t[..4];
      }
    }
  }

  /** The fields of a well-formed part are followed by the fields of what comes after it. */
  lemma {:induction false} ParseAppend(a: seq<byte>, b: seq<byte>)
    requires WellFormed(a)
    ensures ParseFields(a + b) == (ParseFields(a).0 + ParseFields(b).0, ParseFields(b).1)
    decreases |a|
  {
    hide ReadField;
    if a == [] {
      assert a + b == b && [] + ParseFields(b).0 == ParseFields(b).0;
    } else {
      ReadFieldBounds(a);
      ReadFieldLocal(a, b);
      var used := ReadField(a).used;
      assert (a + b)[used..] == a[used..] + b;
      ParseAppend(a[used..], b);
      var head, fields := [ReadField(a).value], ParseFields(a[used..]).0;
      assert head + (fields + ParseFields(b).0) == (head + fields) + ParseFields(b).0;
    }
  }

  lemma {:induction false} FoldAppend<M>(first: seq<Field>, second: seq<Field>, msg: M, callback: Callback<M>)
    ensures var d := Fold(first, msg, callback);
            Fold(first + second, msg, callback) == if d.err.Some? then d else Fold(second, d.msg, callback)
  {
    if first == [] {
      assert first + second == second;
    } else {
      assert (first + second)[1..] == first[1..] + second;
      var d := callback(msg, first[0]);
      FoldAppend(first[1..], second, d.msg, callback);
    }
  }

  /** Decoding is a homomorphism: a well-formed part and then the rest. */
  lemma DecodeAppend<M>(a: seq<byte>, b: seq<byte>, msg: M, callback: Callback<M>)
    requires WellFormed(a)
    ensures var d := Decode(a, msg, callback);
            Decode(a + b, msg, callback) == if d.err.Some? then d else Decode(b, d.msg, callback)
  {
    ParseAppend(a, b);
    FoldAppend(ParseFields(a).0, ParseFields(b).0, msg, callback);
  }

  /** The callback leaves the receiver alone for every field in this part. */
  ghost predicate Ignores<M(!new)>(part: seq<byte>, callback: Callback<M>) {
    forall f, m :: f in ParseFields(part).0 ==> callback(m, f) == Decoded(m, None)
  }

  lemma {:induction false} FoldIgnored<M(!new)>(fields: seq<Field>, msg: M, callback: Callback<M>)
    requires forall f, m :: f in fields ==> callback(m, f) == Decoded(m, None)
    ensures Fold(fields, msg, callback) == Decoded(msg, None)
  {
    if fields != [] {
      FoldIgnored(fields[1..], msg, callback);
    }
  }

  /** Inserting well-formed fields the receiver does not know, at a field boundary, changes nothing. */
  lemma UnknownFieldsIgnored<M(!new)>(a: seq<byte>, unknown: seq<byte>, b: seq<byte>, msg: M, callback: Callback<M>)
    requires WellFormed(a) && WellFormed(unknown) && Ignores(unknown, callback)
    ensures Decode(a + unknown + b, msg, callback) == Decode(a + b, msg, callback)
  {
    hide ParseFields;
    assert a + unknown + b == a + (unknown + b);
    var d := Decode(a, msg, callback);
    DecodeAppend(a, unknown + b, msg, callback);
    DecodeAppend(a, b, msg, callback);
    DecodeAppend(unknown, b, d.msg, callback);
    FoldIgnored(ParseFields(unknown).0, d.msg, callback);
  }

  // Single fields

  lemma TagReads(num: nat, wire: nat, s: seq<byte>)
    requires 1 <= num <= 15 && wire < 8
    ensures ReadVarint([Tag(num, wire)] + s) == Read(num * 8 + wire, 1)
  {
  }

  lemma ReadVarintField(num: nat, value: uint64, rest: seq<byte>)
    requires 1 <= num <= 15
    ensures ReadField(VarintField(num, value) + rest) == Read(Field(num, 0, [], value), |VarintField(num, value)|)
  {
    hide ReadVarint;
    var s := VarintField(num, value) + rest;
    assert s == [Tag(num, 0)] + (Varint(value) + rest);
    TagReads(num, 0, Varint(value) + rest);
    assert s[1..] == Varint(value) + rest;
    VarintRoundTrip(value, rest);
  }

  lemma ReadFixed32Field(num: nat, bits: uint32, rest: seq<byte>)
    requires 1 <= num <= 15
    ensures ReadField(Fixed32Field(num, bits) + rest) == Read(Field(num, 5, PutU32(bits), 0), 5)
  {
    hide ReadVarint;
    var s := Fixed32Field(num, bits) + rest;
    assert s == [Tag(num, 5)] + (PutU32(bits) + rest);
    TagReads(num, 5, PutU32(bits) + rest);
    assert s[1..] == PutU32(bits) + rest;
    assert s[1..][..4] == PutU32(bits);
  }

  lemma ReadBytesField(num: nat, value: seq<byte>, rest: seq<byte>)
    requires 1 <= num <= 15 && |value| < TWO64
    ensures ReadField(BytesField(num, value) + rest) == Read(Field(num, 2, value, 0), |BytesField(num, value)|)
  {
    hide ReadVarint;
    var s, head := BytesField(num, value) + rest, Varint(|value|);
    assert s == [Tag(num, 2)] + (head + value + rest);
    TagReads(num, 2, head + value + rest);
    assert s[1..] == head + (value + rest);
    VarintRoundTrip(|value|, value + rest);
    assert s[1..][|head|..|head| + |value|] == value;
  }

  /** Decoding what starts with a known field: the callback runs on it, then on what follows. */
  lemma DecodeField<M>(field: seq<byte>, f: Field, rest: seq<byte>, msg: M, callback: Callback<M>)
    requires ReadField(field + rest) == Read(f, |field|) && |field| > 0
    ensures var d := callback(msg, f);
            Decode(field + rest, msg, callback) == if d.err.Some? then d else Decode(rest, d.msg, callback)
  {
    hide ReadField, Decode;
    DecodeStep(field + rest, msg, callback);
    assert (field + rest)[|field|..] == rest;
  }
}
