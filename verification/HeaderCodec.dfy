/**
 The header of a bag file: a length, then fields, each a length and the text key=value. WriteHeader
 puts it into a buffer, with the total length prepended last; ReadHeader takes it out again.
 */
module HeaderCodec {
  import opened Arith
  import opened ByteCodec
  import opened ByteBuffer
  import Sequences

  type Field = (Bytes, Bytes)

  const EQUALS: byte := 61

  // ----- the bytes -----

  function FieldText(f: Field): Bytes {
    f.0 + [EQUALS] + f.1
  }

  function EncodeField(f: Field): Bytes {
    LittleEndian(|FieldText(f)|, 4) + FieldText(f)
  }

  function EncodeFields(fields: seq<Field>): Bytes {
    if fields == [] then [] else EncodeField(fields[0]) + EncodeFields(fields[1..])
  }

  function EncodeHeader(fields: seq<Field>): Bytes {
    LittleEndian(|EncodeFields(fields)|, 4) + EncodeFields(fields)
  }

  /** The map that a sequence of fields stands for, on top of another. */
  function AddFields(header: map<Bytes, Bytes>, fields: seq<Field>): map<Bytes, Bytes>
    decreases |fields|
  {
    if fields == [] then header else AddFields(header[fields[0].0 := fields[0].1], fields[1..])
  }

  /** Every length in the header fits its unsigned 32 bits. */
  ghost predicate Fits(fields: seq<Field>) {
    |EncodeFields(fields)| < TWO32
  }

  /** The position of the first occurrence of c, or -1. */
  function Find(s: Bytes, c: byte): (r: int)
    ensures -1 <= r < |s|
    ensures r >= 0 ==> s[r] == c
    ensures forall k :: 0 <= k < (if r >= 0 then r else |s|) ==> s[k] != c
  {
    if s == [] then -1
    else if s[0] == c then 0
    else
      var r := Find(s[1..], c);
      assert forall k :: 1 <= k < |s| ==> s[k] == s[1..][k - 1];
      if r == -1 then -1 else r + 1
  }

  /** What reading gives: the fields and the bytes left, or an assertion of the buffer that fails. */
  datatype Parse = Parsed(header: map<Bytes, Bytes>, rest: Bytes) | TooShort

  function ParseHeader(b: Bytes, header: map<Bytes, Bytes>): Parse {
    if |b| < 4 then TooShort else ParseFields(b[4..], 0, FromLittleEndian(b[..4]), header)
  }

  datatype Cut = Cut(field: Bytes, rest: Bytes) | NoField

  /** The first field, by the length in front of it, and what follows. */
  function CutField(b: Bytes): (c: Cut)
    ensures c.Cut? ==> |c.rest| < |b|
  {
    if |b| < 4 then NoField
    else
      var fieldLen := FromLittleEndian(b[..4]);
      if |b| - 4 < fieldLen then NoField else Cut(b[4..4 + fieldLen], b[4 + fieldLen..])
  }

  datatype Round = Round(readLen: nat, header: map<Bytes, Bytes>, rest: Bytes) | Failed

  /** A field without '=' is skipped and does not count towards the length that has been read. */
  function ParseField(b: Bytes, readLen: nat, header: map<Bytes, Bytes>): (r: Round)
    ensures r.Round? ==> |r.rest| < |b|
  {
    match CutField(b)
    case NoField => Failed
    case Cut(field, rest) =>
      var pos := Find(field, EQUALS);
      if pos == -1 then Round(readLen, header, rest)
      else Round(U32(readLen + U32(|field| + 4)), header[field[..pos] := field[pos + 1..]], rest)
  }

  function ParseFields(b: Bytes, readLen: nat, headerLen: nat, header: map<Bytes, Bytes>): Parse
    decreases |b|
  {
    if readLen >= headerLen then Parsed(header, b)
    else match ParseField(b, readLen, header)
      case Failed => TooShort
      case Round(readLen', header', rest) => ParseFields(rest, readLen', headerLen, header')
  }

  // ----- the two routines over a buffer -----

  /** fields enumerates the header map in the order of its iteration. */
  method WriteHeader(fields: seq<Field>, buffer: Buffer) returns (headerLen: nat)
    requires buffer.Valid() && buffer.readerIndex >= 4 && Fits(fields)
    modifies buffer, buffer.data
    ensures buffer.Valid() && headerLen == |EncodeFields(fields)|
    ensures buffer.Contents() == LittleEndian(headerLen, 4) + (old(buffer.Contents()) + EncodeFields(fields))
    ensures buffer.data == old(buffer.data) || fresh(buffer.data)
  {
    headerLen := WriteFields(fields, buffer);
    Sizes();
    UnsignedThroughSigned(headerLen, 4);
    buffer.PrependInt(Signed(headerLen, 4), 4);
  }

  method WriteFields(fields: seq<Field>, buffer: Buffer) returns (headerLen: nat)
    requires buffer.Valid() && buffer.readerIndex >= 4 && Fits(fields)
    modifies buffer, buffer.data
    ensures buffer.Valid() && buffer.readerIndex >= 4 && headerLen == |EncodeFields(fields)|
    ensures buffer.Contents() == old(buffer.Contents()) + EncodeFields(fields)
    ensures buffer.data == old(buffer.data) || fresh(buffer.data)
  {
    headerLen := 0;
    ghost var before, written := buffer.Contents(), [];
    var k := 0;
    while k < |fields|
      invariant 0 <= k <= |fields| && headerLen == |written| <= |EncodeFields(fields)|
      invariant written + EncodeFields(fields[k..]) == EncodeFields(fields)
      invariant buffer.Valid() && buffer.readerIndex >= 4
      invariant buffer.Contents() == before + written
      invariant buffer.data == old(buffer.data) || fresh(buffer.data)
      modifies buffer, buffer.data
    {
      ghost var written' := WrittenStep(fields, k, before, written);
      AppendField(fields[k], buffer);
      headerLen := U32(headerLen + U32(4 + |FieldText(fields[k])|));
      written, k := written', k + 1;
    }
  }

  lemma WrittenStep(fields: seq<Field>, k: nat, before: Bytes, written: Bytes) returns (written': Bytes)
    requires k < |fields| && written + EncodeFields(fields[k..]) == EncodeFields(fields)
    ensures written' == written + EncodeField(fields[k]) && written' + EncodeFields(fields[k + 1..]) == EncodeFields(fields)
    ensures before + written' == before + written + EncodeField(fields[k])
    ensures |written'| == |written| + 4 + |FieldText(fields[k])| <= |EncodeFields(fields)|
  {
    written' := written + EncodeField(fields[k]);
    var rest := EncodeFields(fields[k + 1..]);
    assert fields[k..][1..] == fields[k + 1..];
    assert EncodeFields(fields[k..]) == EncodeField(fields[k]) + rest;
    assert written + (EncodeField(fields[k]) + rest) == written' + rest;
  }

  method AppendField(f: Field, buffer: Buffer)
    requires buffer.Valid() && buffer.readerIndex >= 4 && |FieldText(f)| < TWO32
    modifies buffer, buffer.data
    ensures buffer.Valid() && buffer.readerIndex >= 4
    ensures buffer.Contents() == old(buffer.Contents()) + EncodeField(f)
    ensures buffer.data == old(buffer.data) || fresh(buffer.data)
  {
    var fieldStr := f.0 + [EQUALS] + f.1;
    ghost var before := buffer.Contents();
    Sizes();
    UnsignedThroughSigned(|fieldStr|, 4);
    buffer.AppendInt(Signed(|fieldStr|, 4), 4);
    buffer.Append(fieldStr);
    assert before + LittleEndian(|fieldStr|, 4) + fieldStr == before + (LittleEndian(|fieldStr|, 4) + fieldStr);
  }

  method ReadHeader(header0: map<Bytes, Bytes>, buffer: Buffer) returns (r: Parse)
    requires buffer.Valid()
    modifies buffer`readerIndex, buffer`writerIndex
    ensures buffer.Valid() && r == ParseHeader(old(buffer.Contents()), header0)
    ensures r.Parsed? ==> buffer.Contents() == r.rest
  {
    if buffer.ReadableBytes() < 4 {
      return TooShort;
    }
    ghost var goal := ParseHeader(buffer.Contents(), header0);
    var headerLen := ReadUnsigned(buffer);
    var readLen: nat, header := 0, header0;
    while readLen < headerLen
      invariant buffer.Valid()
      invariant goal == ParseFields(buffer.Contents(), readLen, headerLen, header)
      decreases |buffer.Contents()|
    {
      var round := ReadField(readLen, header, buffer);
      if round.Failed? {
        return TooShort;
      }
      readLen, header := round.readLen, round.header;
    }
    r := Parsed(header, buffer.data[buffer.readerIndex..buffer.writerIndex]);
  }

  /** One round of the loop. */
  method ReadField(readLen: nat, header: map<Bytes, Bytes>, buffer: Buffer) returns (round: Round)
    requires buffer.Valid()
    modifies buffer`readerIndex, buffer`writerIndex
    ensures buffer.Valid() && round == ParseField(old(buffer.Contents()), readLen, header)
    ensures round.Round? ==> buffer.Contents() == round.rest
  {
    var cut := RetrieveField(buffer);
    if cut.NoField? {
      return Failed;
    }
    var field, rest := cut.field, cut.rest;
    var pos := Find(field, EQUALS);
    if pos == -1 {
      round := Round(readLen, header, rest);
    } else {
      round := Round(U32(readLen + U32(|field| + 4)), header[field[..pos] := field[pos + 1..]], rest);
    }
  }

  /** The two reads at the head of the loop, or the failure of one of their assertions. */
  method RetrieveField(buffer: Buffer) returns (cut: Cut)
    requires buffer.Valid()
    modifies buffer`readerIndex, buffer`writerIndex
    ensures buffer.Valid() && cut == CutField(old(buffer.Contents())) && (cut.Cut? ==> buffer.Contents() == cut.rest)
  {
    if buffer.ReadableBytes() < 4 {
      return NoField;
    }
    ghost var b := buffer.Contents();
    var fieldLen := ReadUnsigned(buffer);
    if buffer.ReadableBytes() < fieldLen {
      return NoField;
    }
    var field := buffer.RetrieveAsString(fieldLen);
    assert field == b[4..4 + fieldLen] && buffer.Contents() == b[4 + fieldLen..];
    cut := Cut(field, buffer.data[buffer.readerIndex..buffer.writerIndex]);
  }

  method ReadUnsigned(buffer: Buffer) returns (x: nat)
    requires buffer.Valid() && buffer.ReadableBytes() >= 4
    modifies buffer`readerIndex, buffer`writerIndex
    ensures buffer.Valid() && buffer.Contents() == old(buffer.Contents())[4..]
    ensures x == FromLittleEndian(old(buffer.Contents())[..4])
  {
    var signed := buffer.ReadInt(4);
    x := Unsigned(signed, 4);
  }

  // ----- the round trip -----

  ghost predicate NoEquals(fields: seq<Field>) {
    forall i :: 0 <= i < |fields| ==> EQUALS !in fields[i].0
  }

  /** Reading what was written, and any padding after it, gives the header back and leaves the padding. */
  lemma HeaderRoundTrip(fields: seq<Field>, padding: Bytes)
    requires Fits(fields) && NoEquals(fields)
    ensures ParseHeader(EncodeHeader(fields) + padding, map[]) == Parsed(AddFields(map[], fields), padding)
  {
    HeaderLength(fields, padding);
    FieldsRoundTrip(EncodeFields(fields) + padding, fields, 0, |EncodeFields(fields)|, padding, map[]);
  }

  lemma HeaderLength(fields: seq<Field>, padding: Bytes)
    requires Fits(fields)
    ensures var b := EncodeHeader(fields) + padding;
      && |b| >= 4 && FromLittleEndian(b[..4]) == |EncodeFields(fields)| && b[4..] == EncodeFields(fields) + padding
  {
    var n := |EncodeFields(fields)|;
    Sizes();
    LittleEndianRoundTrip(n, 4);
    LengthFirst(LittleEndian(n, 4), EncodeFields(fields), padding);
  }

  lemma LengthFirst(length: Bytes, a: Bytes, b: Bytes)
    requires |length| == 4
    ensures (length + a + b)[..4] == length && (length + a + b)[4..] == a + b
  {
  }

  lemma {:induction false} FieldsRoundTrip(b: Bytes, fields: seq<Field>, readLen: nat, headerLen: nat, padding: Bytes,
                                           header: map<Bytes, Bytes>)
    requires headerLen == readLen + |EncodeFields(fields)| < TWO32 && NoEquals(fields)
    requires b == EncodeFields(fields) + padding
    ensures ParseFields(b, readLen, headerLen, header) == Parsed(AddFields(header, fields), padding)
    decreases |fields|
  {
    if fields == [] {
      assert b == padding;
    } else {
      var f, rest := fields[0], EncodeFields(fields[1..]) + padding;
      var readLen', header' := readLen + |FieldText(f)| + 4, header[f.0 := f.1];
      FirstField(fields, padding);
      FieldRoundTrip(b, f, readLen, rest, header);
      FirstRound(b, rest, readLen, readLen', headerLen, header, header');
      FieldsRoundTrip(rest, fields[1..], readLen', headerLen, padding, header');
    }
  }

  lemma FirstField(fields: seq<Field>, padding: Bytes)
    requires fields != []
    ensures var f, tail := fields[0], fields[1..];
      && EncodeFields(fields) + padding == EncodeField(f) + (EncodeFields(tail) + padding)
      && |EncodeFields(fields)| == 4 + |FieldText(f)| + |EncodeFields(tail)|
      && (NoEquals(fields) ==> NoEquals(tail))
  {
    Sequences.Assoc(EncodeField(fields[0]), EncodeFields(fields[1..]), padding);
  }

  lemma FirstRound(b: Bytes, b': Bytes, readLen: nat, readLen': nat, headerLen: nat,
                   header: map<Bytes, Bytes>, header': map<Bytes, Bytes>)
    requires readLen < headerLen && ParseField(b, readLen, header) == Round(readLen', header', b')
    ensures ParseFields(b, readLen, headerLen, header) == ParseFields(b', readLen', headerLen, header')
  {
  }

  lemma FieldRoundTrip(b: Bytes, f: Field, readLen: nat, rest: Bytes, header: map<Bytes, Bytes>)
    requires EQUALS !in f.0 && readLen + |FieldText(f)| + 4 < TWO32 && b == EncodeField(f) + rest
    ensures ParseField(b, readLen, header) == Round(readLen + |FieldText(f)| + 4, header[f.0 := f.1], rest)
  {
    CutEncoded(FieldText(f), rest);
    FirstEquals(f);
  }

  /** The length in front of a field cuts it out exactly. */
  lemma CutEncoded(text: Bytes, rest: Bytes)
    requires |text| < TWO32
    ensures CutField(LittleEndian(|text|, 4) + text + rest) == Cut(text, rest)
  {
    var b := LittleEndian(|text|, 4) + text + rest;
    Sizes();
    LittleEndianRoundTrip(|text|, 4);
    assert b[..4] == LittleEndian(|text|, 4);
    assert b[4..4 + |text|] == text && b[4 + |text|..] == rest;
  }

  lemma FirstEquals(f: Field)
    requires EQUALS !in f.0
    ensures Find(FieldText(f), EQUALS) == |f.0|
    ensures FieldText(f)[..|f.0|] == f.0 && FieldText(f)[|f.0| + 1..] == f.1
  {
    var text := FieldText(f);
    assert text[|f.0|] == EQUALS;
    assert forall k :: 0 <= k < |f.0| ==> text[k] == f.0[k];
  }

  /** No key that is read ever contains '='. */
  lemma {:induction false} ParsedKeysHaveNoEquals(b: Bytes, readLen: nat, headerLen: nat, header: map<Bytes, Bytes>)
    requires forall k :: k in header ==> EQUALS !in k
    ensures var p := ParseFields(b, readLen, headerLen, header);
      p.Parsed? ==> forall k :: k in p.header ==> EQUALS !in k
    decreases |b|
  {
    if readLen < headerLen {
      var round := ParseField(b, readLen, header);
      if round.Round? {
        ParsedKeysHaveNoEquals(round.rest, round.readLen, headerLen, round.header);
      }
    }
  }

  lemma {:induction false} AllKeysAdded(header: map<Bytes, Bytes>, fields: seq<Field>)
    ensures header.Keys <= AddFields(header, fields).Keys
    ensures forall i :: 0 <= i < |fields| ==> fields[i].0 in AddFields(header, fields)
    decreases |fields|
  {
    if fields != [] {
      AllKeysAdded(header[fields[0].0 := fields[0].1], fields[1..]);
      forall i | 0 <= i < |fields|
        ensures fields[i].0 in AddFields(header, fields)
      {
        if i > 0 { assert fields[i] == fields[1..][i - 1]; }
      }
    }
  }

  /** The condition on keys is exact. */
  lemma RoundTripExactly(fields: seq<Field>, padding: Bytes)
    requires Fits(fields)
    ensures NoEquals(fields) <==>
      ParseHeader(EncodeHeader(fields) + padding, map[]) == Parsed(AddFields(map[], fields), padding)
  {
    if NoEquals(fields) {
      HeaderRoundTrip(fields, padding);
    } else {
      var i :| 0 <= i < |fields| && EQUALS in fields[i].0;
      AllKeysAdded(map[], fields);
      var b := EncodeHeader(fields) + padding;
      ParsedKeysHaveNoEquals(b[4..], 0, FromLittleEndian(b[..4]), map[]);
    }
  }

  /** The same through the two routines: the padding may make the buffer grow or move its bytes. */
  method WriteThenRead(fields: seq<Field>, padding: Bytes, initialSize: nat) returns (r: Parse, unread: Bytes)
    requires Fits(fields) && NoEquals(fields)
    ensures r == Parsed(AddFields(map[], fields), padding) && unread == padding
  {
    var buffer := new Buffer(initialSize);
    var _ := WriteHeader(fields, buffer);
    assert buffer.Contents() == EncodeHeader(fields);
    buffer.Append(padding);
    HeaderRoundTrip(fields, padding);
    r := ReadHeader(map[], buffer);
    unread := buffer.data[buffer.readerIndex..buffer.writerIndex];
  }
}
