/** HPACK header blocks (sections 2.3 and 6 of RFC 7541), src/http2/co_http2_hpack.c.

    The functions say what the printer and the parser compute from values; the methods do it on a table
    and a buffer updated in place and are proved to agree. Properties are in HpackRoundTrip.dfy. */
module Hpack {
  import opened Machine
  import opened CStrings
  import opened PrefixInt
  import opened DynamicTable
  import opened Huffman
  import StaticTable

  datatype Field = Field(name: CString, value: CString)

  /** The pseudo-headers and the ordered field list. The `:path` text is opaque; `query` only records
      whether its sender built it with a query, which switches two short forms off. */
  datatype Header = Header(
    method_: Option<CString>, protocol: Option<CString>, scheme: Option<CString>, path: Option<CString>,
    query: bool, authority: Option<CString>, status: u16, fields: seq<Field>)

  const EMPTY: Header := Header(None, None, None, None, false, None, 0, [])

  // ---- strings: length prefix, then plain or Huffman-coded bytes ----

  function StringBytes(t: CodeTable, encoding: bool, s: seq<byte>): (r: seq<byte>)
    requires |t| == 257
  {
    var body: seq<byte> := if encoding then Encode(t, s) else s;
    Print(127, encoding, Wrap32(|body|)) + body
  }

  /** The string and the number of bytes it took. */
  function ParseString(t: CodeTable, data: seq<byte>): (r: Option<(CString, nat)>)
    requires |t| == 257
    ensures r.Some? ==> 1 <= r.value.1 <= |data|
  {
    match Parse(127, data)
    case None => None
    case Some((length, index)) =>
      if |data| - index < length then None
      else
        var body := data[index..index + length];
        if data[0] < 128 then Some((CStr(body), index + length))
        else
          match Decode(t, body)
          case None => None
          case Some(s) => Some((CStr(s), index + length))
  }

  // ---- one representation, printed ----

  /** What the printer is asked to send: a constant table index, or a field to look up. */
  datatype Emission = Indexed(index: u32) | Literal(name: CString, value: CString)

  datatype Printed = Printed(bytes: seq<byte>, table: Table)

  function PrintField(t: CodeTable, d: Table, name: CString, value: CString): Printed
    requires |t| == 257
  {
    match Find(d.items, name, value)
    case Some(k) => Printed(Print(127, true, Wrap32(62 + k)), d)
    case None =>
      var head := match StaticTable.Find(name)
        case Some(i) => Print(63, true, i)
        case None => Print(63, true, 0) + StringBytes(t, true, name);
      Printed(head + StringBytes(t, true, value), Added(d, name, value))
  }

  function PrintOne(t: CodeTable, d: Table, e: Emission): Printed
    requires |t| == 257
  {
    match e
    case Indexed(i) => Printed(Print(127, true, i), d)
    case Literal(name, value) => PrintField(t, d, name, value)
  }

  function PrintAll(t: CodeTable, d: Table, es: seq<Emission>): Printed
    requires |t| == 257
    decreases es
  {
    if es == [] then Printed([], d)
    else
      var first := PrintOne(t, d, es[0]);
      var rest := PrintAll(t, first.table, es[1..]);
      Printed(first.bytes + rest.bytes, rest.table)
  }

  lemma {:induction false} PrintSnoc(t: CodeTable, d: Table, es: seq<Emission>, e: Emission)
    requires |t| == 257
    ensures var before := PrintAll(t, d, es);
            var last := PrintOne(t, before.table, e);
            PrintAll(t, d, es + [e]) == Printed(before.bytes + last.bytes, last.table)
    decreases es
  {
    hide PrintOne;
    if es == [] {
      assert es + [e] == [e] && [e][1..] == [];
      var last := PrintOne(t, d, e);
      assert last.bytes + [] == last.bytes && [] + last.bytes == last.bytes;
    } else {
      var first := PrintOne(t, d, es[0]);
      assert (es + [e])[0] == es[0] && (es + [e])[1..] == es[1..] + [e];
      PrintSnoc(t, first.table, es[1..], e);
      var mid := PrintAll(t, first.table, es[1..]);
      Associative(first.bytes, mid.bytes, PrintOne(t, mid.table, e).bytes);
    }
  }

  /** Printing leaves the table, or adds the field to it. */
  lemma TableAfter(t: CodeTable, d: Table, e: Emission)
    requires |t| == 257
    ensures PrintOne(t, d, e).table
            == if e.Literal? && Find(d.items, e.name, e.value).None? then Added(d, e.name, e.value) else d
  {
    hide Added, Find, Print, StringBytes, StaticTable.Find;
  }

  // ---- a header as a list of emissions ----

  function Optional(name: CString, value: Option<CString>): seq<Emission> {
    if value.None? then [] else [Literal(name, value.value)]
  }

  /** A pseudo-header that has two constant forms. */
  function WithShortForms(name: CString, value: Option<CString>, a: CString, i: u32, b: CString, j: u32): (r: seq<Emission>)
    ensures |r| <= 1
  {
    if value.None? then []
    else if CaseEq(value.value, a) then [Indexed(i)]
    else if CaseEq(value.value, b) then [Indexed(j)]
    else [Literal(name, value.value)]
  }

  const METHOD: CString := Ascii(":method")
  const PROTOCOL: CString := Ascii(":protocol")
  const SCHEME: CString := Ascii(":scheme")
  const PATH: CString := Ascii(":path")
  const AUTHORITY: CString := Ascii(":authority")
  const STATUS: CString := Ascii(":status")

  function MethodPart(h: Header): seq<Emission> {
    WithShortForms(METHOD, h.method_, Ascii("GET"), 2, Ascii("POST"), 3)
  }

  function SchemePart(h: Header): seq<Emission> {
    WithShortForms(SCHEME, h.scheme, Ascii("http"), 6, Ascii("https"), 7)
  }

  function PathPart(h: Header): seq<Emission> {
    if h.query then Optional(PATH, h.path) else WithShortForms(PATH, h.path, Ascii("/"), 4, Ascii("/index.html"), 5)
  }

  function StatusIndex(status: u16): Option<u32> {
    match status
    case 200 => Some(8)
    case 204 => Some(9)
    case 206 => Some(10)
    case 304 => Some(11)
    case 400 => Some(12)
    case 404 => Some(13)
    case 500 => Some(14)
    case _ => None
  }

  function DecimalString(n: nat): CString {
    Decimal(n)
  }

  function StatusPart(h: Header): seq<Emission> {
    if h.status == 0 then []
    else match StatusIndex(h.status)
         case Some(i) => [Indexed(i)]
         case None => [Literal(STATUS, DecimalString(h.status))]
  }

  function FieldPart(fields: seq<Field>): (r: seq<Emission>)
    ensures |r| == |fields| && forall i :: 0 <= i < |r| ==> r[i] == Literal(fields[i].name, fields[i].value)
  {
    seq(|fields|, i requires 0 <= i < |fields| => Literal(fields[i].name, fields[i].value))
  }

  function Emissions(h: Header): seq<Emission> {
    MethodPart(h) + Optional(PROTOCOL, h.protocol) + SchemePart(h) + PathPart(h)
    + Optional(AUTHORITY, h.authority) + StatusPart(h) + FieldPart(h.fields)
  }

  // ---- one representation, parsed ----

  datatype ParsedField = NoField | ParsedField(name: CString, value: CString, used: nat)

  /** A literal: name by index or spelled out, then the value. */
  function ParseField(t: CodeTable, bitMax: byte, data: seq<byte>, d: Table): (r: ParsedField)
    requires |t| == 257 && IsPrefixMax(bitMax)
    ensures r.ParsedField? ==> 1 <= r.used <= |data|
  {
    match Parse(bitMax, data)
    case None => NoField
    case Some((headerIndex, i)) =>
      if headerIndex == 0 then
        match ParseString(t, data[i..])
        case None => NoField
        case Some((name, j)) =>
          match ParseString(t, data[i + j..])
          case None => NoField
          case Some((value, k)) => ParsedField(name, value, i + j + k)
      else if headerIndex > 61 && EntryAt(d.items, headerIndex).None? then NoField
      else
        var name := if headerIndex <= 61 then StaticTable.Name(headerIndex - 1) else EntryAt(d.items, headerIndex).value.name;
        match ParseString(t, data[i..])
        case None => NoField
        case Some((value, j)) => ParsedField(name, value, i + j)
  }

  /** Malformed ends the block. Undefined marks the inputs on which the program reads a value that the
      static table does not have, or the tail of an empty list. */
  datatype Parsed = Malformed | Undefined | Parsed(field: Option<Field>, table: Table, used: nat)

  function ParseIndexed(data: seq<byte>, d: Table): (r: Parsed)
    ensures r.Parsed? ==> 1 <= r.used <= |data|
  {
    match Parse(127, data)
    case None => Malformed
    case Some((headerIndex, used)) =>
      if headerIndex == 0 then Malformed
      else if headerIndex <= 61 then
        match StaticTable.Value(headerIndex - 1)
        case None => Undefined
        case Some(value) => Parsed(Some(Field(StaticTable.Name(headerIndex - 1), value)), d, used)
      else
        match EntryAt(d.items, headerIndex)
        case None => Malformed
        case Some(item) => Parsed(Some(Field(item.name, item.value)), d, used)
  }

  function ParseOne(t: CodeTable, data: seq<byte>, d: Table): (r: Parsed)
    requires |t| == 257 && data != []
    ensures r.Parsed? ==> 1 <= r.used <= |data|
  {
    if data[0] >= 128 then ParseIndexed(data, d)
    else if data[0] >= 64 then
      match ParseField(t, 63, data, d)
      case NoField => Malformed
      case ParsedField(name, value, used) =>
        if EvictSafe(Extended(d, name, value)) then Parsed(Some(Field(name, value)), Added(d, name, value), used)
        else Undefined
    else if data[0] >= 32 then
      match Parse(31, data)
      case None => Malformed
      case Some((size, used)) =>
        if size == 0 || EvictSafe(d.(maxSize := size)) then Parsed(None, Resized(d, size), used) else Undefined
    else
      match ParseField(t, 15, data, d)
      case NoField => Malformed
      case ParsedField(name, value, used) => Parsed(Some(Field(name, value)), d, used)
  }

  /** The static entries whose value is absent, or past the end of the value table. */
  predicate Valueless(headerIndex: nat) {
    headerIndex == 1 || headerIndex == 15 || 17 <= headerIndex <= 61
  }

  /** Whatever the program's table holds and whatever bytes come, it leaves defined ground in one family of
      cases only: the index of such an entry. One byte tells, unless the index is longer. */
  lemma UndefinedExactly(t: CodeTable, data: seq<byte>, d: Table)
    requires |t| == 257 && data != [] && Counted(d)
    ensures ParseOne(t, data, d) == Undefined <==>
              data[0] >= 128 && Parse(127, data).Some? && Valueless(Parse(127, data).value.0)
    ensures data[0] != 0xff ==> (ParseOne(t, data, d) == Undefined <==> data[0] >= 128 && Valueless(data[0] - 128))
  {
    hide ParseField, Added, EvictSafe, Extended, StaticTable.Name, Resized, Counted, ParseTail;
    if data[0] >= 128 {
    } else if data[0] >= 64 {
      var f := ParseField(t, 63, data, d);
      if f.ParsedField? { AddKeepsCounted(d, f.name, f.value); }
    } else if data[0] >= 32 {
      var p := Parse(31, data);
      if p.Some? { ResizeKeepsCounted(d, p.value.0); }
    }
  }

  /** A longer index may wrap to one of them: six bytes for 2^32 + 1. */
  lemma WrappedIndexUndefined(t: CodeTable, d: Table)
    requires |t| == 257 && Counted(d)
    ensures ParseOne(t, [0xff, 0x82, 0xff, 0xff, 0xff, 0x0f], d) == Undefined
  {
    hide Counted, Parse, ParseOne;
    LongIntegerWraps();
    UndefinedExactly(t, [0xff, 0x82, 0xff, 0xff, 0xff, 0x0f], d);
  }

  /** Nor does any byte string leave a table whose total is off by other than a multiple of 2^32. */
  lemma ParseKeepsCounted(t: CodeTable, data: seq<byte>, d: Table)
    requires |t| == 257 && data != [] && Counted(d)
    ensures var r := ParseOne(t, data, d); r.Parsed? ==> Counted(r.table)
  {
    hide ParseField, ParseIndexed, Added, EvictSafe, Extended, Parse, Resized, Counted;
    ParseIndexedKeeps(data, d);
    if 64 <= data[0] < 128 {
      var f := ParseField(t, 63, data, d);
      if f.ParsedField? { AddKeepsCounted(d, f.name, f.value); }
    } else if 32 <= data[0] < 64 {
      var p := Parse(31, data);
      if p.Some? { ResizeKeepsCounted(d, p.value.0); }
    }
  }

  lemma ParseIndexedKeeps(data: seq<byte>, d: Table)
    ensures var r := ParseIndexed(data, d); r.Parsed? ==> r.table == d
  {
    hide Parse, StaticTable.Name, StaticTable.Value;
  }

  datatype Slot = Authority | Method | Path | Scheme | Status | Protocol | Regular

  /** Where a decoded field goes: a pseudo-header by its name up to case, else the field list. */
  function SlotOf(name: CString): Slot {
    if CaseEq(name, AUTHORITY) then Authority
    else if CaseEq(name, METHOD) then Method
    else if CaseEq(name, PATH) then Path
    else if CaseEq(name, SCHEME) then Scheme
    else if CaseEq(name, STATUS) then Status
    else if CaseEq(name, PROTOCOL) then Protocol
    else Regular
  }

  function Put(h: Header, slot: Slot, f: Field): Header {
    match slot
    case Authority => h.(authority := Some(f.value))
    case Method => h.(method_ := Some(f.value))
    case Path => h.(path := Some(f.value))
    case Scheme => h.(scheme := Some(f.value))
    case Status => h.(status := Strtoul16(f.value))
    case Protocol => h.(protocol := Some(f.value))
    case Regular => h.(fields := h.fields + [f])
  }

  function Store(h: Header, f: Field): Header {
    Put(h, SlotOf(f.name), f)
  }

  function StoreOption(h: Header, f: Option<Field>): Header {
    match f case None => h case Some(f) => Store(h, f)
  }

  datatype Outcome = Complete | Broken | Unspecified

  datatype Block = Block(outcome: Outcome, header: Header, table: Table)

  function ParseBlock(t: CodeTable, data: seq<byte>, d: Table, h: Header): (r: Block)
    requires |t| == 257
    decreases data
  {
    if data == [] then Block(Complete, h, d)
    else
      match ParseOne(t, data, d)
      case Malformed => Block(Broken, h, d)
      case Undefined => Block(Unspecified, h, d)
      case Parsed(f, d', used) => ParseBlock(t, data[used..], d', StoreOption(h, f))
  }

  /** Over a whole block of any bytes, from any table of the program: the table stays one. It is sound in the
      end exactly if the entries it then holds are below 2^32 in all. */
  lemma {:induction false} BlockKeepsCounted(t: CodeTable, data: seq<byte>, d: Table, h: Header)
    requires |t| == 257 && Counted(d)
    ensures var r := ParseBlock(t, data, d, h);
            Counted(r.table) && (Sound(r.table) <==> TrueTotal(r.table.items) < TWO_32)
    decreases data
  {
    hide ParseOne, Counted, Sound, StoreOption, TrueTotal;
    if data == [] {
      SoundExactly(d);
    } else {
      SoundExactly(d);
      ParseKeepsCounted(t, data, d);
      match ParseOne(t, data, d) {
        case Malformed =>
        case Undefined =>
        case Parsed(f, d', used) => BlockKeepsCounted(t, data[used..], d', StoreOption(h, f));
      }
    }
  }
}
