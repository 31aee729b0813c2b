/** The printer and the parser of src/http2/co_http2_hpack.c on a buffer and a table updated in place. */
module HpackCodec {
  import opened Machine
  import opened CStrings
  import opened PrefixInt
  import opened DynamicTable
  import opened Huffman
  import opened Bits
  import opened Hpack
  import Automaton
  import StaticTable

  method SerializeString(t: CodeTable, encoding: bool, str: CString, buffer: ByteArray)
    requires ValidCode(t)
    modifies buffer
    ensures buffer.bytes == old(buffer.bytes) + StringBytes(t, encoding, str)
  {
    hide Print, Encode, PrefixFree;
    ghost var before := buffer.bytes;
    if encoding {
      var encoded, length := EncodeString(t, str);
      Serialize(127, encoding, Wrap32(length), buffer);
      buffer.Add(encoded[..length]);
    } else {
      Serialize(127, encoding, Wrap32(|str|), buffer);
      buffer.Add(str);
    }
    ghost var body: seq<byte> := if encoding then Encode(t, str) else str;
    Associative(before, Print(127, encoding, Wrap32(|body|)), body);
  }

  method SerializeHeaderField(t: CodeTable, name: CString, value: CString, table: DynamicTable, buffer: ByteArray)
    requires ValidCode(t) && Counted(table.State())
    modifies table, buffer
    ensures var p := PrintField(t, old(table.State()), name, value);
            buffer.bytes == old(buffer.bytes) + p.bytes && table.State() == p.table && Counted(table.State())
  {
    hide Print, StringBytes, PrefixFree, StaticTable.Find, Evict, Extended, Counted;
    ghost var before := buffer.bytes;
    var found, headerIndex := table.FindItem(name, value);
    if found {
      Serialize(127, true, headerIndex, buffer);
    } else if StaticTable.Find(name).Some? {
      var i := StaticTable.Find(name).value;
      Serialize(63, true, i, buffer);
      SerializeString(t, true, value, buffer);
      table.AddItem(name, value);
      Associative(before, Print(63, true, i), StringBytes(t, true, value));
    } else {
      Serialize(63, true, 0, buffer);
      SerializeString(t, true, name, buffer);
      SerializeString(t, true, value, buffer);
      table.AddItem(name, value);
      Associative(before, Print(63, true, 0), StringBytes(t, true, name));
      Associative(before, Print(63, true, 0) + StringBytes(t, true, name), StringBytes(t, true, value));
    }
  }

  /** Printing is underway: `sent` is in the buffer and the table. */
  ghost predicate Underway(t: CodeTable, table: DynamicTable, buffer: ByteArray, d: Table, start: seq<byte>, sent: seq<Emission>)
    requires |t| == 257
    reads table, buffer
  {
    && Counted(table.State())
    && buffer.bytes == start + PrintAll(t, d, sent).bytes && table.State() == PrintAll(t, d, sent).table
  }

  /** One emission: either a constant index or a field. */
  method SerializeEmission(t: CodeTable, e: Emission, table: DynamicTable, buffer: ByteArray,
                           ghost d: Table, ghost start: seq<byte>, ghost sent: seq<Emission>)
    requires ValidCode(t) && Underway(t, table, buffer, d, start, sent)
    modifies table, buffer
    ensures Underway(t, table, buffer, d, start, sent + [e])
  {
    hide Print, PrintAll, PrintField, PrefixFree, Counted;
    ghost var before := PrintAll(t, d, sent);
    PrintSnoc(t, d, sent, e);
    match e {
      case Indexed(i) => Serialize(127, true, i, buffer);
      case Literal(name, value) => SerializeHeaderField(t, name, value, table, buffer);
    }
    Associative(start, before.bytes, PrintOne(t, before.table, e).bytes);
  }

  /** Emissions of one part of the header, in order. */
  method SerializePart(t: CodeTable, part: seq<Emission>, table: DynamicTable, buffer: ByteArray,
                       ghost d: Table, ghost start: seq<byte>, ghost sent: seq<Emission>)
    requires ValidCode(t) && Underway(t, table, buffer, d, start, sent)
    modifies table, buffer
    ensures Underway(t, table, buffer, d, start, sent + part)
  {
    hide Underway, PrefixFree;
    var i := 0;
    assert sent + part[..0] == sent;
    while i < |part|
      invariant i <= |part| && Underway(t, table, buffer, d, start, sent + part[..i])
    {
      SerializeEmission(t, part[i], table, buffer, d, start, sent + part[..i]);
      assert sent + part[..i] + [part[i]] == sent + part[..i + 1];
      i := i + 1;
    }
    assert part[..i] == part;
  }

  method SerializeHeader(t: CodeTable, header: Header, table: DynamicTable, buffer: ByteArray)
    requires ValidCode(t) && Counted(table.State())
    modifies table, buffer
    ensures var p := PrintAll(t, old(table.State()), Emissions(header));
            buffer.bytes == old(buffer.bytes) + p.bytes && table.State() == p.table && Counted(table.State())
  {
    hide Underway, PrefixFree, MethodPart, Optional, SchemePart, PathPart, StatusPart, FieldPart, PrintAll, Counted;
    ghost var d, start := table.State(), buffer.bytes;
    var p0, p1, p2 := MethodPart(header), Optional(PROTOCOL, header.protocol), SchemePart(header);
    var p3, p4 := PathPart(header), Optional(AUTHORITY, header.authority);
    var p5, p6 := StatusPart(header), FieldPart(header.fields);
    assert [] + p0 == p0;
    Begin(t, table, buffer);
    SerializePart(t, p0, table, buffer, d, start, []);
    SerializePart(t, p1, table, buffer, d, start, [] + p0);
    SerializePart(t, p2, table, buffer, d, start, [] + p0 + p1);
    SerializePart(t, p3, table, buffer, d, start, [] + p0 + p1 + p2);
    SerializePart(t, p4, table, buffer, d, start, [] + p0 + p1 + p2 + p3);
    SerializePart(t, p5, table, buffer, d, start, [] + p0 + p1 + p2 + p3 + p4);
    SerializePart(t, p6, table, buffer, d, start, [] + p0 + p1 + p2 + p3 + p4 + p5);
    End(t, table, buffer, d, start, Emissions(header));
  }

  lemma Begin(t: CodeTable, table: DynamicTable, buffer: ByteArray)
    requires |t| == 257 && Counted(table.State())
    ensures Underway(t, table, buffer, table.State(), buffer.bytes, [])
  {
    NothingPrinted(t, table.State());
    hide PrintAll, Counted;
    assert buffer.bytes + [] == buffer.bytes;
  }

  lemma End(t: CodeTable, table: DynamicTable, buffer: ByteArray, d: Table, start: seq<byte>, all: seq<Emission>)
    requires |t| == 257 && Underway(t, table, buffer, d, start, all)
    ensures buffer.bytes == start + PrintAll(t, d, all).bytes && table.State() == PrintAll(t, d, all).table && Counted(table.State())
  {
    hide PrintAll, Counted;
  }

  lemma NothingPrinted(t: CodeTable, d: Table)
    requires |t| == 257
    ensures PrintAll(t, d, []) == Printed([], d)
  {
  }

  // ---- parsing ----

  method DeserializeString(ghost t: CodeTable, ghost places: seq<Bitstring>, auto: Automaton.Table, data: seq<byte>)
      returns (ok: bool, str: CString, index: nat)
    requires ValidCode(t) && Automaton.Implements(auto, places, t)
    ensures ok <==> ParseString(t, data).Some?
    ensures ok ==> ParseString(t, data) == Some((str, index))
  {
    hide Parse, Decode, PrefixFree, Automaton.Implements;
    str := [];
    var read, length, i := Deserialize(127, data);
    index := i;
    if !read || |data| - index < length {
      return false, str, index;
    }
    var body := data[index..index + length];
    index := index + length;
    if data[0] >= 128 {
      var decoded, dest, destLength := Automaton.DecodeString(t, places, auto, body);
      if !decoded {
        return false, str, index;
      }
      str := CStr(dest[..destLength]);
    } else {
      str := CStr(body);
    }
    ok := true;
  }

  method DeserializeHeaderField(ghost t: CodeTable, ghost places: seq<Bitstring>, auto: Automaton.Table,
                                bitMax: byte, data: seq<byte>, table: DynamicTable)
      returns (ok: bool, name: CString, value: CString, index: nat)
    requires ValidCode(t) && Automaton.Implements(auto, places, t) && IsPrefixMax(bitMax)
    ensures ok <==> ParseField(t, bitMax, data, table.State()).ParsedField?
    ensures ok ==> ParseField(t, bitMax, data, table.State()) == ParsedField(name, value, index)
  {
    hide Parse, ParseString, PrefixFree, Automaton.Implements, StaticTable.Name;
    name, value, index := [], [], 0;
    var read, headerIndex, i := Deserialize(bitMax, data);
    if !read {
      return false, name, value, index;
    }
    if headerIndex == 0 {
      var j;
      ok, name, j := DeserializeString(t, places, auto, data[i..]);
      if !ok {
        return;
      }
      i := i + j;
    } else if headerIndex <= 61 {
      name := StaticTable.Name(headerIndex - 1);
    } else {
      var unused;
      ok, name, unused := table.FindItemByIndex(headerIndex);
      if !ok {
        return;
      }
    }
    var k;
    ok, value, k := DeserializeString(t, places, auto, data[i..]);
    index := i + k;
  }

  /** One turn of the loop below: a representation is parsed and the table changed. It stops short where
      the program would read a static value that is not there. */
  method DeserializeOne(ghost t: CodeTable, ghost places: seq<Bitstring>, auto: Automaton.Table,
                        data: seq<byte>, table: DynamicTable)
      returns (outcome: Outcome, field: Option<Field>, index: nat)
    requires ValidCode(t) && Automaton.Implements(auto, places, t) && data != [] && Counted(table.State())
    modifies table
    ensures ParseOne(t, data, old(table.State())) == (match outcome
                                                      case Complete => Parsed(field, table.State(), index)
                                                      case Broken => Malformed
                                                      case Unspecified => Undefined)
    ensures outcome != Complete ==> table.State() == old(table.State())
    ensures Counted(table.State())
  {
    hide Parse, ParseField, PrefixFree, Automaton.Implements, StaticTable.Name, StaticTable.Value, Evict, EvictSafe, Extended, Counted;
    outcome, field, index := Complete, None, 0;
    var prefix, name, value, ok := data[0], [], [], true;
    if prefix >= 128 {
      var headerIndex: u32;
      ok, headerIndex, index := Deserialize(127, data);
      if !ok || headerIndex == 0 {
        return Broken, field, index;
      }
      if headerIndex <= 61 {
        if StaticTable.Value(headerIndex - 1).None? {
          return Unspecified, field, index;
        }
        field := Some(Field(StaticTable.Name(headerIndex - 1), StaticTable.Value(headerIndex - 1).value));
      } else {
        ok, name, value := table.FindItemByIndex(headerIndex);
        field := Some(Field(name, value));
      }
    } else if prefix >= 64 {
      ok, name, value, index := DeserializeHeaderField(t, places, auto, 63, data, table);
      if ok {
        AddKeepsCounted(table.State(), name, value);
        table.AddItem(name, value);
        field := Some(Field(name, value));
      }
    } else if prefix >= 32 {
      var size: u32;
      ok, size, index := Deserialize(31, data);
      if ok {
        ResizeKeepsCounted(table.State(), size);
        table.Resize(size);
      }
    } else {
      ok, name, value, index := DeserializeHeaderField(t, places, auto, 15, data, table);
      field := Some(Field(name, value));
    }
    if !ok {
      outcome := Broken;
    }
  }

  /** Consumes the block from the front; on a malformed representation it stops where it is. */
  method DeserializeHeader(ghost t: CodeTable, ghost places: seq<Bitstring>, auto: Automaton.Table,
                           data: seq<byte>, table: DynamicTable, into: Header)
      returns (outcome: Outcome, header: Header)
    requires ValidCode(t) && Automaton.Implements(auto, places, t) && Counted(table.State())
    modifies table
    ensures ParseBlock(t, data, old(table.State()), into) == Block(outcome, header, table.State())
    ensures Counted(table.State())
  {
    hide ParseOne, StoreOption, PrefixFree, Automaton.Implements, Counted;
    var rest := data;
    header := into;
    while rest != []
      invariant ParseBlock(t, rest, table.State(), header) == ParseBlock(t, data, old(table.State()), into)
      invariant Counted(table.State())
      decreases rest
    {
      var parsed, field, index := DeserializeOne(t, places, auto, rest, table);
      if parsed != Complete {
        return parsed, header;
      }
      header := StoreOption(header, field);
      rest := rest[index..];
    }
    outcome := Complete;
  }
}
