/** The two ends of an HPACK connection stay in step, and every block decodes to what was encoded up to
    ASCII case, exactly when no empty string has to be spelled out. */
module HpackRoundTrip {
  import opened Machine
  import opened CStrings
  import opened PrefixInt
  import opened DynamicTable
  import opened Huffman
  import opened Hpack
  import StaticTable

  // ---- strings ----

  /** A Huffman-coded string survives, as far as a C string goes, unless it is empty; a plain one always does. */
  lemma StringRoundTrip(t: CodeTable, encoding: bool, s: seq<byte>, rest: seq<byte>)
    requires ValidCode(t) && |s| < TWO_32 && |Encode(t, s)| < TWO_32
    ensures var bytes := StringBytes(t, encoding, s);
            ParseString(t, bytes + rest) == if encoding && s == [] then None else Some((CStr(s), |bytes|))
  {
    hide Print, Parse, Encode, Decode, CStr, PrefixFree;
    if encoding {
      StringShape(t, true, Encode(t, s), rest);
      Huffman.RoundTrip(t, s);
      assert StringBytes(t, true, s) == Print(127, true, |Encode(t, s)|) + Encode(t, s);
    } else {
      StringShape(t, false, s, rest);
      assert StringBytes(t, false, s) == Print(127, false, |s|) + s;
    }
  }

  /** A printed string's length and body, found again in front of whatever follows. */
  lemma StringShape(t: CodeTable, flagged: bool, body: seq<byte>, rest: seq<byte>)
    requires |t| == 257 && |body| < TWO_32
    ensures var head := Print(127, flagged, |body|); var data := head + body + rest;
            && Parse(127, data) == Some((|body|, |head|))
            && data[|head|..|head| + |body|] == body && (data[0] >= 128 <==> flagged)
  {
    hide Print, Parse;
    var head := Print(127, flagged, |body|);
    assert head + body + rest == head + (body + rest);
    PrefixInt.RoundTrip(127, flagged, |body|, body + rest);
  }

  // ---- tables in step ----

  /** How a name arrives that is sent for the first time: as the static table spells it, if it is found. */
  function Spelling(name: CString): (r: CString)
    ensures CaseEq(r, name)
  {
    match StaticTable.Find(name)
    case Some(i) => StaticTable.Name(i - 1)
    case None => name
  }

  /** Same bounds and totals, same sizes and values, and names as they arrive; nothing empty is stored. */
  ghost predicate InStep(a: Table, b: Table) {
    && a.maxSize == b.maxSize && a.totalSize == b.totalSize && |a.items| == |b.items|
    && forall i :: 0 <= i < |a.items| ==> SameItem(a.items[i], b.items[i])
  }

  ghost predicate SameItem(x: Item, y: Item) {
    x.size == y.size && y.name == Spelling(x.name) && x.value == y.value && x.name != [] && x.value != []
  }

  lemma {:induction false} EvictInStep(a: Table, b: Table)
    requires InStep(a, b)
    ensures InStep(Evict(a), Evict(b)) && EvictSafe(a) == EvictSafe(b)
    decreases |a.items|
  {
    hide SameItem;
    if a.totalSize > a.maxSize && a.items != [] {
      assert SameItem(a.items[|a.items| - 1], b.items[|b.items| - 1]);
      SameSize(a.items[|a.items| - 1], b.items[|b.items| - 1]);
      EvictInStep(WithoutOldest(a), WithoutOldest(b));
    }
  }

  lemma SameSize(x: Item, y: Item)
    requires SameItem(x, y)
    ensures x.size == y.size
  {
  }

  lemma AddInStep(a: Table, b: Table, name: CString, value: CString)
    requires InStep(a, b) && name != [] && value != []
    ensures InStep(Added(a, name, value), Added(b, Spelling(name), value))
    ensures EvictSafe(Extended(a, name, value)) == EvictSafe(Extended(b, Spelling(name), value))
  {
    hide Evict, EvictSafe, Spelling;
    assert |Lower(name)| == |Lower(Spelling(name))|;
    EvictInStep(Extended(a, name, value), Extended(b, Spelling(name), value));
  }

  // ---- one representation ----

  /** The limits of 32-bit lengths and indices: the strings, and one more entry in the table. */
  ghost predicate Fits(t: CodeTable, d: Table, name: CString, value: CString)
    requires |t| == 257
  {
    && |name| < TWO_32 && |value| < TWO_32
    && |Encode(t, name)| < TWO_32 && |Encode(t, value)| < TWO_32
    && 62 + |d.items| < TWO_32
  }

  predicate NonEmpty(e: Emission) {
    e.Literal? ==> e.name != [] && e.value != []
  }

  predicate Meaningful(e: Emission) {
    e.Indexed? ==> 1 <= e.index <= 61 && StaticTable.Value(e.index - 1).Some?
  }

  /** The field a representation stands for. */
  function Meaning(e: Emission): Field {
    match e
    case Indexed(i) =>
      if Meaningful(e) then Field(StaticTable.Name(i - 1), StaticTable.Value(i - 1).value) else Field([], [])
    case Literal(name, value) => Field(name, value)
  }

  /** What it arrives as, by the sender's own table: an entry that is equal up to case stands for the field. */
  function Arrival(d: Table, e: Emission): (f: Field) {
    match e
    case Indexed(_) => Meaning(e)
    case Literal(name, value) =>
      match Find(d.items, name, value)
      case Some(k) => Field(Spelling(d.items[k].name), d.items[k].value)
      case None => Field(Spelling(name), value)
  }

  predicate SameField(f: Field, g: Field) {
    CaseEq(f.name, g.name) && CaseEq(f.value, g.value)
  }

  lemma ArrivesAlike(d: Table, e: Emission)
    ensures SameField(Arrival(d, e), Meaning(e))
  {
    hide Lower, Spelling, Meaningful, StaticTable.Name, StaticTable.Value;
  }

  ghost predicate Sendable(t: CodeTable, d: Table, e: Emission)
    requires |t| == 257
  {
    Meaningful(e) && (e.Literal? ==> Fits(t, d, e.name, e.value))
  }

  /** An index is parsed back; 1xxxxxxx. */
  lemma IndexedRoundTrip(i: u32, d: Table, rest: seq<byte>)
    requires i != 0
    ensures var bytes := Print(127, true, i);
            && bytes[0] >= 128
            && ParseIndexed(bytes + rest, d) ==
                 if i <= 61 then
                   if StaticTable.Value(i - 1).Some?
                   then Parsed(Some(Field(StaticTable.Name(i - 1), StaticTable.Value(i - 1).value)), d, |bytes|) else Undefined
                 else if EntryAt(d.items, i).Some?
                   then Parsed(Some(Field(EntryAt(d.items, i).value.name, EntryAt(d.items, i).value.value)), d, |bytes|)
                 else Malformed
  {
    hide Parse, StaticTable.Name, StaticTable.Value;
    PrefixInt.RoundTrip(127, true, i, rest);
  }

  /** The name at an index, static or newest first behind it. */
  function NameAt(d: Table, i: nat): Option<CString>
  {
    if i == 0 then None
    else if i <= 61 then Some(StaticTable.Name(i - 1))
    else if i < 62 + |d.items| then Some(d.items[i - 62].name)
    else None
  }

  /** A literal with an indexed name, at either prefix size, flagged or not. */
  lemma IndexedNameRoundTrip(t: CodeTable, bitMax: byte, flagged: bool, i: u32, coded: bool, value: seq<byte>, d: Table, rest: seq<byte>)
    requires ValidCode(t) && IsPrefixMax(bitMax) && i != 0 && |value| < TWO_32 && |Encode(t, value)| < TWO_32
    ensures var head, v := Print(bitMax, flagged, i), StringBytes(t, coded, value);
            ParseField(t, bitMax, head + v + rest, d) ==
              match NameAt(d, i)
              case None => NoField
              case Some(name) => if coded && value == [] then NoField else ParsedField(name, CStr(value), |head| + |v|)
  {
    hide Print, Parse, StringBytes, ParseString, Encode, StaticTable.Name, PrefixFree, CStr;
    var head, v := Print(bitMax, flagged, i), StringBytes(t, coded, value);
    assert head + v + rest == head + (v + rest);
    PrefixInt.RoundTrip(bitMax, flagged, i, v + rest);
    assert (head + (v + rest))[|head|..] == v + rest;
    StringRoundTrip(t, coded, value, rest);
  }

  /** A literal with both strings spelled out. */
  lemma NewNameRoundTrip(t: CodeTable, bitMax: byte, flagged: bool, nameCoded: bool, name: seq<byte>,
          coded: bool, value: seq<byte>, d: Table, rest: seq<byte>)
    requires ValidCode(t) && IsPrefixMax(bitMax)
    requires |name| < TWO_32 && |value| < TWO_32 && |Encode(t, name)| < TWO_32 && |Encode(t, value)| < TWO_32
    ensures var head, n, v := Print(bitMax, flagged, 0), StringBytes(t, nameCoded, name), StringBytes(t, coded, value);
            ParseField(t, bitMax, head + n + v + rest, d) ==
              if (nameCoded && name == []) || (coded && value == []) then NoField
              else ParsedField(CStr(name), CStr(value), |head| + |n| + |v|)
  {
    hide Print, Parse, StringBytes, ParseString, Encode, PrefixFree, CStr;
    var head, n, v := Print(bitMax, flagged, 0), StringBytes(t, nameCoded, name), StringBytes(t, coded, value);
    var data := head + (n + (v + rest));
    assert head + n + v + rest == data;
    PrefixInt.RoundTrip(bitMax, flagged, 0, n + (v + rest));
    assert data[|head|..] == n + (v + rest) && data[|head| + |n|..] == v + rest;
    StringRoundTrip(t, nameCoded, name, v + rest);
    StringRoundTrip(t, coded, value, rest);
  }

  /** What one emission from table `a` comes to at a parser with table `b`. */
  ghost predicate ComesBack(t: CodeTable, e: Emission, a: Table, b: Table, rest: seq<byte>)
    requires |t| == 257
  {
    var p := PrintOne(t, a, e);
    && p.bytes != []
    && (NonEmpty(e) ==>
          match ParseOne(t, p.bytes + rest, b)
          case Parsed(f, b', used) => f == Some(Arrival(a, e)) && used == |p.bytes| && InStep(p.table, b') && Counted(p.table)
          case _ => false)
    && (!NonEmpty(e) ==> ParseOne(t, p.bytes + rest, b) == Malformed)
  }

  /** The printer's choice among three forms is undone by the parser: the field comes back as its arrival,
      and both tables change alike. An empty string that must be spelled out cannot be parsed. */
  lemma OneRoundTrip(t: CodeTable, e: Emission, a: Table, b: Table, rest: seq<byte>)
    requires ValidCode(t) && Counted(a) && InStep(a, b) && Sendable(t, a, e)
    ensures ComesBack(t, e, a, b, rest)
  {
    hide Print, Parse, ParseIndexed, ParseField, StringBytes, ParseString, Encode, StaticTable.Name, StaticTable.Value, PrefixFree,
         Added, EvictSafe, Extended, Lower, Counted, StaticTable.Find;
    match e {
      case Indexed(i) => IndexedRoundTrip(i, b, rest);
      case Literal(name, value) =>
        if Find(a.items, name, value).Some? {
          FoundRoundTrip(t, name, value, a, b, rest);
        } else {
          AddedRoundTrip(t, name, value, a, b, rest);
        }
    }
  }

  /** The field is in the table already. */
  lemma FoundRoundTrip(t: CodeTable, name: CString, value: CString, a: Table, b: Table, rest: seq<byte>)
    requires ValidCode(t) && Counted(a) && InStep(a, b) && Sendable(t, a, Literal(name, value))
    requires Find(a.items, name, value).Some?
    ensures ComesBack(t, Literal(name, value), a, b, rest)
  {
    hide Print, Parse, ParseIndexed, ParseField, StringBytes, ParseString, Encode, StaticTable.Name, StaticTable.Value, PrefixFree,
         Added, EvictSafe, Extended, Counted, StaticTable.Find, Spelling;
    var k := Find(a.items, name, value).value;
    assert SameItem(a.items[k], b.items[k]) && Matches(a.items[k], name, value);
    IndexedRoundTrip(62 + k, b, rest);
  }

  /** The field is new: both ends add it. */
  lemma AddedRoundTrip(t: CodeTable, name: CString, value: CString, a: Table, b: Table, rest: seq<byte>)
    requires ValidCode(t) && Counted(a) && InStep(a, b) && Sendable(t, a, Literal(name, value))
    requires Find(a.items, name, value).None?
    ensures ComesBack(t, Literal(name, value), a, b, rest)
  {
    hide Print, Parse, ParseIndexed, ParseField, StringBytes, ParseString, Encode, StaticTable.Name, StaticTable.Value, PrefixFree,
         Added, EvictSafe, Extended, Lower, Counted, StaticTable.Find, Find;
    var e := Literal(name, value);
    AddKeepsCounted(a, name, value);
    if NonEmpty(e) { AddInStep(a, b, name, value); }
    if StaticTable.Find(name).Some? {
      IndexedNameRoundTrip(t, 63, true, StaticTable.Find(name).value, true, value, b, rest);
    } else {
      NewNameRoundTrip(t, 63, true, true, name, true, value, b, rest);
    }
  }

  // ---- headers up to case ----

  predicate SameText(a: Option<CString>, b: Option<CString>) {
    match (a, b)
    case (None, None) => true
    case (Some(x), Some(y)) => CaseEq(x, y)
    case _ => false
  }

  predicate SameFields(a: seq<Field>, b: seq<Field>) {
    |a| == |b| && forall i :: 0 <= i < |a| ==> SameField(a[i], b[i])
  }

  /** Equal pseudo-headers and equal ordered field lists, up to ASCII case. */
  predicate SameHeader(a: Header, b: Header) {
    && SameText(a.method_, b.method_) && SameText(a.protocol, b.protocol) && SameText(a.scheme, b.scheme)
    && SameText(a.path, b.path) && SameText(a.authority, b.authority)
    && a.status == b.status && SameFields(a.fields, b.fields)
  }

  lemma SameFieldsSnoc(a: seq<Field>, b: seq<Field>, f: Field, g: Field)
    requires SameFields(a, b) && SameField(f, g)
    ensures SameFields(a + [f], b + [g])
  {
  }

  /** Dispatch on the name ignores case, and so does number parsing. */
  lemma StoreSame(a: Header, b: Header, f: Field, g: Field)
    requires SameHeader(a, b) && SameField(f, g)
    ensures SameHeader(Store(a, f), Store(b, g))
  {
    hide SlotOf, Put, SameHeader;
    SameSlot(f.name, g.name);
    PutSame(a, b, SlotOf(f.name), f, g);
  }

  lemma PutSame(a: Header, b: Header, slot: Slot, f: Field, g: Field)
    requires SameHeader(a, b) && SameField(f, g)
    ensures SameHeader(Put(a, slot, f), Put(b, slot, g))
  {
    hide Strtoul16, CaseEq, SameFields;
    if slot == Status {
      StrtoulCase(f.value, g.value);
    } else if slot == Regular {
      SameFieldsSnoc(a.fields, b.fields, f, g);
    }
  }

  lemma SameSlot(x: CString, y: CString)
    requires CaseEq(x, y)
    ensures SlotOf(x) == SlotOf(y)
  {
    hide Lower;
  }

  function StoreList(h: Header, fs: seq<Field>): Header
    decreases fs
  {
    if fs == [] then h else StoreList(Store(h, fs[0]), fs[1..])
  }

  predicate AllSame(fs: seq<Field>, gs: seq<Field>) {
    |fs| == |gs| && forall i :: 0 <= i < |fs| ==> SameField(fs[i], gs[i])
  }

  lemma {:induction false} StoreListSame(a: Header, b: Header, fs: seq<Field>, gs: seq<Field>)
    requires SameHeader(a, b) && AllSame(fs, gs)
    ensures SameHeader(StoreList(a, fs), StoreList(b, gs))
    decreases fs
  {
    hide Store, SameHeader, SameField;
    if fs != [] {
      StoreSame(a, b, fs[0], gs[0]);
      StoreListSame(Store(a, fs[0]), Store(b, gs[0]), fs[1..], gs[1..]);
    }
  }

  lemma {:induction false} StoreConcat(h: Header, xs: seq<Field>, ys: seq<Field>)
    ensures StoreList(h, xs + ys) == StoreList(StoreList(h, xs), ys)
    decreases xs
  {
    hide Store;
    if xs == [] {
      assert xs + ys == ys;
    } else {
      assert (xs + ys)[0] == xs[0] && (xs + ys)[1..] == xs[1..] + ys;
      StoreConcat(Store(h, xs[0]), xs[1..], ys);
    }
  }

  // ---- blocks ----

  ghost predicate AllSendable(t: CodeTable, d: Table, es: seq<Emission>)
    requires |t| == 257
    decreases es
  {
    es == [] || (Sendable(t, d, es[0]) && AllSendable(t, PrintOne(t, d, es[0]).table, es[1..]))
  }

  predicate AllNonEmpty(es: seq<Emission>) {
    forall i :: 0 <= i < |es| ==> NonEmpty(es[i])
  }

  /** The fields of a block as they arrive, the sender's table changing from one to the next. */
  function Arrivals(t: CodeTable, d: Table, es: seq<Emission>): (fs: seq<Field>)
    requires |t| == 257
    ensures |fs| == |es|
    decreases es
  {
    if es == [] then [] else [Arrival(d, es[0])] + Arrivals(t, PrintOne(t, d, es[0]).table, es[1..])
  }

  function Meanings(es: seq<Emission>): (fs: seq<Field>)
    ensures |fs| == |es| && forall i :: 0 <= i < |fs| ==> fs[i] == Meaning(es[i])
  {
    seq(|es|, i requires 0 <= i < |es| => Meaning(es[i]))
  }

  lemma {:induction false} ArrivalsAlike(t: CodeTable, d: Table, es: seq<Emission>)
    requires |t| == 257
    ensures AllSame(Arrivals(t, d, es), Meanings(es))
    decreases es
  {
    hide Arrival, Meaning, SameField, PrintOne;
    if es != [] {
      ArrivesAlike(d, es[0]);
      ArrivalsAlike(t, PrintOne(t, d, es[0]).table, es[1..]);
    }
  }

  /** A whole block: it parses if and only if no string in it is empty, and then to the arrivals, with the
      two tables in step again. */
  lemma {:induction false} BlockRoundTrip(t: CodeTable, es: seq<Emission>, a: Table, b: Table, h: Header)
    requires ValidCode(t) && Counted(a) && InStep(a, b) && AllSendable(t, a, es)
    ensures var p := PrintAll(t, a, es);
            var r := ParseBlock(t, p.bytes, b, h);
            && (AllNonEmpty(es) ==> r.outcome == Complete && r.header == StoreList(h, Arrivals(t, a, es))
                                    && InStep(p.table, r.table) && Counted(p.table))
            && (!AllNonEmpty(es) ==> r.outcome == Broken)
    decreases es
  {
    hide PrintOne, ParseOne, Store, Sendable, NonEmpty, Arrival, Counted, InStep, PrefixFree;
    if es != [] {
      var first := PrintOne(t, a, es[0]);
      var rest := PrintAll(t, first.table, es[1..]);
      OneRoundTrip(t, es[0], a, b, rest.bytes);
      if NonEmpty(es[0]) {
        var step := ParseOne(t, first.bytes + rest.bytes, b);
        assert (first.bytes + rest.bytes)[|first.bytes|..] == rest.bytes;
        BlockRoundTrip(t, es[1..], first.table, step.table, Store(h, step.field.value));
      }
    }
  }

  // ---- what a header's emissions mean ----

  lemma SlotsOfNames()
    ensures SlotOf(AUTHORITY) == Authority && SlotOf(METHOD) == Method && SlotOf(PATH) == Path
    ensures SlotOf(SCHEME) == Scheme && SlotOf(STATUS) == Status && SlotOf(PROTOCOL) == Protocol
  {
    assert Lower(METHOD)[1] == 109;
    assert Lower(SCHEME)[1] == 115 && Lower(SCHEME)[2] == 99;
    assert Lower(STATUS)[1] == 115 && Lower(STATUS)[2] == 116;
  }

  lemma ShortStatus(status: u16)
    requires StatusIndex(status).Some?
    ensures var e := Indexed(StatusIndex(status).value); Meaningful(e) && Meaning(e) == Field(STATUS, DecimalString(status))
  {
    var tens := Decimal(status / 10);
    assert status >= 200 && status < 1000 && status / 10 / 10 < 10;
    assert tens == Decimal(status / 10 / 10) + [48 + status / 10 % 10] == [48 + status / 10 / 10, 48 + status / 10 % 10];
    assert Decimal(status) == tens + [48 + status % 10];
  }

  /** The constant forms stand for the names and values they abbreviate. */
  lemma ShortForms()
    ensures forall i: u32 :: 2 <= i <= 7 ==> Meaningful(Indexed(i))
    ensures Meaning(Indexed(2)) == Field(METHOD, Ascii("GET")) && Meaning(Indexed(3)) == Field(METHOD, Ascii("POST"))
    ensures Meaning(Indexed(4)) == Field(PATH, Ascii("/")) && Meaning(Indexed(5)) == Field(PATH, Ascii("/index.html"))
    ensures Meaning(Indexed(6)) == Field(SCHEME, Ascii("http")) && Meaning(Indexed(7)) == Field(SCHEME, Ascii("https"))
  {
  }

  function Text(name: CString, value: Option<CString>): seq<Field> {
    if value.None? then [] else [Field(name, value.value)]
  }

  function StatusField(status: u16): seq<Field> {
    if status == 0 then [] else [Field(STATUS, DecimalString(status))]
  }

  /** A header as the plain list of its fields, in the order in which the printer sends them. */
  function Originals(h: Header): seq<Field> {
    Text(METHOD, h.method_) + Text(PROTOCOL, h.protocol) + Text(SCHEME, h.scheme) + Text(PATH, h.path)
    + Text(AUTHORITY, h.authority) + StatusField(h.status) + h.fields
  }

  /** All that a decoded header can hold: not how its path was built. */
  function Plain(h: Header): Header {
    h.(query := false)
  }

  predicate RegularNames(h: Header) {
    forall i :: 0 <= i < |h.fields| ==> SlotOf(h.fields[i].name) == Regular
  }

  /** Emissions that stand for these fields, up to case. */
  predicate StandFor(es: seq<Emission>, fs: seq<Field>) {
    AllSame(Meanings(es), fs) && forall i :: 0 <= i < |es| ==> Meaningful(es[i])
  }

  lemma StandConcat(es: seq<Emission>, fs: seq<Field>, es': seq<Emission>, fs': seq<Field>)
    requires StandFor(es, fs) && StandFor(es', fs')
    ensures StandFor(es + es', fs + fs')
  {
    hide Meaningful, Meaning, SameField;
  }

  lemma ShortStands(name: CString, value: Option<CString>, a: CString, i: u32, b: CString, j: u32)
    requires Meaningful(Indexed(i)) && Meaning(Indexed(i)) == Field(name, a)
    requires Meaningful(Indexed(j)) && Meaning(Indexed(j)) == Field(name, b)
    ensures StandFor(WithShortForms(name, value, a, i, b, j), Text(name, value))
  {
    hide StaticTable.Name, StaticTable.Value, Lower;
  }

  lemma PathStands(h: Header)
    ensures StandFor(PathPart(h), Text(PATH, h.path))
  {
    hide StaticTable.Name, StaticTable.Value, Lower, WithShortForms;
    ShortForms();
    if !h.query {
      ShortStands(PATH, h.path, Ascii("/"), 4, Ascii("/index.html"), 5);
    }
  }

  lemma StatusStands(h: Header)
    ensures StandFor(StatusPart(h), StatusField(h.status))
  {
    hide StaticTable.Name, StaticTable.Value, Lower, StatusIndex;
    if StatusIndex(h.status).Some? {
      ShortStatus(h.status);
    }
  }

  /** What the printer is asked to send for a header stands for its fields. */
  lemma EmissionsStand(h: Header)
    ensures StandFor(Emissions(h), Originals(h))
  {
    hide StandFor, MethodPart, SchemePart, PathPart, StatusPart, Optional, Text, StatusField, FieldPart;
    PartsStand(h);
    PathStands(h);
    StatusStands(h);
    var es, fs := MethodPart(h), Text(METHOD, h.method_);
    StandConcat(es, fs, Optional(PROTOCOL, h.protocol), Text(PROTOCOL, h.protocol));
    es, fs := es + Optional(PROTOCOL, h.protocol), fs + Text(PROTOCOL, h.protocol);
    StandConcat(es, fs, SchemePart(h), Text(SCHEME, h.scheme));
    es, fs := es + SchemePart(h), fs + Text(SCHEME, h.scheme);
    StandConcat(es, fs, PathPart(h), Text(PATH, h.path));
    es, fs := es + PathPart(h), fs + Text(PATH, h.path);
    StandConcat(es, fs, Optional(AUTHORITY, h.authority), Text(AUTHORITY, h.authority));
    es, fs := es + Optional(AUTHORITY, h.authority), fs + Text(AUTHORITY, h.authority);
    StandConcat(es, fs, StatusPart(h), StatusField(h.status));
    StandConcat(es + StatusPart(h), fs + StatusField(h.status), FieldPart(h.fields), h.fields);
  }

  lemma PartsStand(h: Header)
    ensures StandFor(MethodPart(h), Text(METHOD, h.method_)) && StandFor(SchemePart(h), Text(SCHEME, h.scheme))
    ensures StandFor(Optional(PROTOCOL, h.protocol), Text(PROTOCOL, h.protocol))
    ensures StandFor(Optional(AUTHORITY, h.authority), Text(AUTHORITY, h.authority))
    ensures StandFor(FieldPart(h.fields), h.fields)
  {
    hide StaticTable.Name, StaticTable.Value, Lower, WithShortForms;
    ShortForms();
    ShortStands(METHOD, h.method_, Ascii("GET"), 2, Ascii("POST"), 3);
    ShortStands(SCHEME, h.scheme, Ascii("http"), 6, Ascii("https"), 7);
  }

  // ---- a header and the list of its fields ----

  lemma {:induction false} StoreRegular(h: Header, fields: seq<Field>)
    requires forall i :: 0 <= i < |fields| ==> SlotOf(fields[i].name) == Regular
    ensures StoreList(h, fields) == h.(fields := h.fields + fields)
    decreases fields
  {
    hide SlotOf;
    if fields == [] {
      assert h.fields + fields == h.fields;
    } else {
      StoreRegular(h.(fields := h.fields + [fields[0]]), fields[1..]);
      assert h.fields + [fields[0]] + fields[1..] == h.fields + fields;
    }
  }

  lemma StoreOne(x: Header, f: Field)
    ensures StoreList(x, [f]) == Store(x, f)
  {
    assert [f][1..] == [];
  }

  /** Storing a pseudo-header into its empty slot. */
  lemma FillsSlot(x: Header, name: CString, v: Option<CString>)
    ensures var r := StoreList(x, Text(name, v));
            && (name == METHOD && x.method_ == None ==> r == x.(method_ := v))
            && (name == PROTOCOL && x.protocol == None ==> r == x.(protocol := v))
            && (name == SCHEME && x.scheme == None ==> r == x.(scheme := v))
            && (name == PATH && x.path == None ==> r == x.(path := v))
            && (name == AUTHORITY && x.authority == None ==> r == x.(authority := v))
  {
    hide SlotOf, StoreList;
    SlotsOfNames();
    if v.Some? {
      StoreOne(x, Field(name, v.value));
    } else {
      StoreNothing(x);
    }
  }

  lemma StoreNothing(x: Header)
    ensures StoreList(x, []) == x
  {
  }

  lemma FillsStatus(x: Header, status: u16)
    requires x.status == 0
    ensures StoreList(x, StatusField(status)) == x.(status := status)
  {
    hide SlotOf, StoreList, Strtoul16;
    SlotsOfNames();
    StoreNothing(x);
    if status != 0 {
      StoreOne(x, StatusField(status)[0]);
      StatusRoundTrip(status);
    }
  }

  /** Storing its fields one after the other builds the header. */
  lemma OriginalsBuild(h: Header)
    requires RegularNames(h)
    ensures StoreList(EMPTY, Originals(h)) == Plain(h)
  {
    hide SlotOf, StoreList, Text, StatusField;
    var fs, x := Text(METHOD, h.method_), EMPTY.(method_ := h.method_);
    FillsSlot(EMPTY, METHOD, h.method_);
    FillsSlot(x, PROTOCOL, h.protocol);
    StoreConcat(EMPTY, fs, Text(PROTOCOL, h.protocol));
    fs, x := fs + Text(PROTOCOL, h.protocol), x.(protocol := h.protocol);
    FillsSlot(x, SCHEME, h.scheme);
    StoreConcat(EMPTY, fs, Text(SCHEME, h.scheme));
    fs, x := fs + Text(SCHEME, h.scheme), x.(scheme := h.scheme);
    FillsSlot(x, PATH, h.path);
    StoreConcat(EMPTY, fs, Text(PATH, h.path));
    fs, x := fs + Text(PATH, h.path), x.(path := h.path);
    FillsSlot(x, AUTHORITY, h.authority);
    StoreConcat(EMPTY, fs, Text(AUTHORITY, h.authority));
    fs, x := fs + Text(AUTHORITY, h.authority), x.(authority := h.authority);
    FillsStatus(x, h.status);
    StoreConcat(EMPTY, fs, StatusField(h.status));
    fs, x := fs + StatusField(h.status), x.(status := h.status);
    StoreRegular(x, h.fields);
    StoreConcat(EMPTY, fs, h.fields);
    assert [] + h.fields == h.fields;
  }

  /** Replaying what is sent for a header, in any spelling, rebuilds it up to case. */
  lemma EmissionsMean(h: Header)
    requires RegularNames(h)
    ensures SameHeader(StoreList(EMPTY, Meanings(Emissions(h))), h)
  {
    hide StoreList, SlotOf, Originals, Emissions, SameHeader, AllSame, Meaningful, Meanings;
    EmissionsStand(h);
    OriginalsBuild(h);
    SameEmpty();
    StoreListSame(EMPTY, EMPTY, Meanings(Emissions(h)), Originals(h));
    PlainIsSame(StoreList(EMPTY, Meanings(Emissions(h))), h);
  }

  lemma PlainIsSame(x: Header, h: Header)
    ensures SameHeader(x, Plain(h)) <==> SameHeader(x, h)
  {
    hide Lower;
  }

  lemma SameEmpty()
    ensures SameHeader(EMPTY, EMPTY)
  {
  }

  // ---- byte for byte ----

  /** A field that leaves the same in a header: the whole of a regular one, the value of a pseudo-header. */
  predicate Alike(f: Field, g: Field) {
    match SlotOf(g.name)
    case Regular => f == g
    case Status => true
    case _ => f.value == g.value
  }

  predicate AllAlike(fs: seq<Field>, gs: seq<Field>) {
    |fs| == |gs| && forall i :: 0 <= i < |fs| ==> Alike(fs[i], gs[i])
  }

  predicate SameAt(a: Header, b: Header, slot: Slot) {
    match slot
    case Authority => a.authority == b.authority
    case Method => a.method_ == b.method_
    case Path => a.path == b.path
    case Scheme => a.scheme == b.scheme
    case Status => a.status == b.status
    case Protocol => a.protocol == b.protocol
    case Regular => true
  }

  lemma StoreExactly(a: Header, b: Header, f: Field, g: Field)
    requires SameField(f, g) && SameAt(a, b, SlotOf(g.name))
    ensures Store(a, f) == Store(b, g) <==> a == b && Alike(f, g)
  {
    hide SlotOf, Strtoul16, CaseEq;
    SameSlot(f.name, g.name);
    StrtoulCase(f.value, g.value);
    if SlotOf(g.name) == Regular {
      assert (a.fields + [f])[..|a.fields|] == a.fields && (b.fields + [g])[..|b.fields|] == b.fields;
      assert (a.fields + [f])[|a.fields|] == f && (b.fields + [g])[|b.fields|] == g;
    }
  }

  lemma StoreKeepsOthers(a: Header, b: Header, f: Field, g: Field, slot: Slot)
    requires SameField(f, g) && SameAt(a, b, slot) && SlotOf(g.name) != slot
    ensures SameAt(Store(a, f), Store(b, g), slot)
  {
    hide SlotOf, Strtoul16, CaseEq;
    SameSlot(f.name, g.name);
  }

  lemma {:induction false} ListKeepsOthers(a: Header, b: Header, fs: seq<Field>, gs: seq<Field>, slot: Slot)
    requires AllSame(fs, gs) && SameAt(a, b, slot) && forall i :: 0 <= i < |gs| ==> SlotOf(gs[i].name) != slot
    ensures SameAt(StoreList(a, fs), StoreList(b, gs), slot)
    decreases fs
  {
    hide SlotOf, Store, SameField, SameAt;
    if fs != [] {
      StoreKeepsOthers(a, b, fs[0], gs[0], slot);
      ListKeepsOthers(Store(a, fs[0]), Store(b, gs[0]), fs[1..], gs[1..], slot);
    }
  }

  /** No pseudo-header occurs twice. */
  predicate Apart(fs: seq<Field>) {
    forall i, j :: 0 <= i < j < |fs| && SlotOf(fs[i].name) == SlotOf(fs[j].name) ==> SlotOf(fs[j].name) == Regular
  }

  lemma StoreSnoc(x: Header, fs: seq<Field>)
    requires fs != []
    ensures StoreList(x, fs) == Store(StoreList(x, fs[..|fs| - 1]), fs[|fs| - 1])
  {
    hide Store;
    var f := fs[|fs| - 1];
    assert fs == fs[..|fs| - 1] + [f];
    StoreConcat(x, fs[..|fs| - 1], [f]);
    StoreOne(StoreList(x, fs[..|fs| - 1]), f);
  }

  /** Two lists of fields that agree up to case build the same header exactly if they are alike. */
  lemma {:induction false} StoreListExactly(x: Header, fs: seq<Field>, gs: seq<Field>)
    requires AllSame(fs, gs) && Apart(gs)
    ensures StoreList(x, fs) == StoreList(x, gs) <==> AllAlike(fs, gs)
    decreases |fs|
  {
    hide SlotOf, Store, SameField, SameAt, StoreList, Alike;
    if fs == [] {
      StoreNothing(x);
    } else {
      var n := |fs| - 1;
      var slot := SlotOf(gs[n].name);
      var a, b := StoreList(x, fs[..n]), StoreList(x, gs[..n]);
      StoreListExactly(x, fs[..n], gs[..n]);
      StoreSnoc(x, fs);
      StoreSnoc(x, gs);
      SameAtRegular(x, a, b);
      if slot != Regular {
        ListKeepsOthers(x, x, fs[..n], gs[..n], slot);
      }
      StoreExactly(a, b, fs[n], gs[n]);
      AlikeSnoc(fs, gs);
    }
  }

  lemma SameAtRegular(x: Header, a: Header, b: Header)
    ensures SameAt(a, b, Regular) && forall slot :: SameAt(x, x, slot)
  {
  }

  lemma AlikeSnoc(fs: seq<Field>, gs: seq<Field>)
    requires |fs| == |gs| && fs != []
    ensures var n := |fs| - 1; AllAlike(fs, gs) <==> AllAlike(fs[..n], gs[..n]) && Alike(fs[n], gs[n])
  {
    hide Alike;
    var n := |fs| - 1;
    if AllAlike(fs[..n], gs[..n]) && Alike(fs[n], gs[n]) {
      forall i | 0 <= i < |fs| ensures Alike(fs[i], gs[i]) {
        if i < n { assert fs[..n][i] == fs[i] && gs[..n][i] == gs[i]; }
      }
    }
  }

  function Order(slot: Slot): nat {
    match slot
    case Method => 1
    case Protocol => 2
    case Scheme => 3
    case Path => 4
    case Authority => 5
    case Status => 6
    case Regular => 7
  }

  /** Pseudo-headers in the printer's order, all before the one with this number. */
  predicate InOrder(fs: seq<Field>, end: nat) {
    && (forall i :: 0 <= i < |fs| ==> Order(SlotOf(fs[i].name)) < end)
    && forall i, j :: 0 <= i < j < |fs| ==> Order(SlotOf(fs[i].name)) < Order(SlotOf(fs[j].name))
  }

  lemma OneMoreInOrder(fs: seq<Field>, more: seq<Field>, slot: Slot)
    requires InOrder(fs, Order(slot)) && |more| <= 1 && (more != [] ==> SlotOf(more[0].name) == slot)
    ensures InOrder(fs + more, Order(slot) + 1)
  {
    hide SlotOf;
  }

  lemma OriginalsApart(h: Header)
    requires RegularNames(h)
    ensures Apart(Originals(h))
  {
    hide SlotOf, InOrder;
    SlotsOfNames();
    NoneInOrder();
    var fs := [] + Text(METHOD, h.method_);
    OneMoreInOrder([], Text(METHOD, h.method_), Method);
    OneMoreInOrder(fs, Text(PROTOCOL, h.protocol), Protocol);
    fs := fs + Text(PROTOCOL, h.protocol);
    OneMoreInOrder(fs, Text(SCHEME, h.scheme), Scheme);
    fs := fs + Text(SCHEME, h.scheme);
    OneMoreInOrder(fs, Text(PATH, h.path), Path);
    fs := fs + Text(PATH, h.path);
    OneMoreInOrder(fs, Text(AUTHORITY, h.authority), Authority);
    fs := fs + Text(AUTHORITY, h.authority);
    OneMoreInOrder(fs, StatusField(h.status), Status);
    fs := fs + StatusField(h.status);
    PseudoThenRegular(fs, h.fields);
    assert Originals(h) == fs + h.fields;
  }

  lemma NoneInOrder()
    ensures InOrder([], 1)
  {
  }

  lemma PseudoThenRegular(fs: seq<Field>, fields: seq<Field>)
    requires InOrder(fs, 7) && forall i :: 0 <= i < |fields| ==> SlotOf(fields[i].name) == Regular
    ensures Apart(fs + fields)
  {
    hide SlotOf;
  }

  /** A header comes back byte for byte, given how its fields arrive, exactly if each is alike. */
  lemma HeaderKeptExactly(h: Header, fs: seq<Field>)
    requires RegularNames(h) && AllSame(fs, Originals(h))
    ensures StoreList(EMPTY, fs) == Plain(h) <==> AllAlike(fs, Originals(h))
  {
    hide SlotOf, Originals, StoreList, AllSame, AllAlike, Apart;
    OriginalsApart(h);
    OriginalsBuild(h);
    StoreListExactly(EMPTY, fs, Originals(h));
  }

  lemma AllSameTrans(fs: seq<Field>, gs: seq<Field>, hs: seq<Field>)
    requires AllSame(fs, gs) && AllSame(gs, hs)
    ensures AllSame(fs, hs)
  {
    hide Lower;
  }

  // ---- whole connections ----

  datatype Stream = Stream(blocks: seq<seq<byte>>, table: Table)

  function PrintBlocks(t: CodeTable, d: Table, hs: seq<Header>): Stream
    requires |t| == 257
    decreases hs
  {
    if hs == [] then Stream([], d)
    else
      var first := PrintAll(t, d, Emissions(hs[0]));
      var rest := PrintBlocks(t, first.table, hs[1..]);
      Stream([first.bytes] + rest.blocks, rest.table)
  }

  datatype Received = Lost | Received(headers: seq<Header>, table: Table)

  function ParseBlocks(t: CodeTable, d: Table, blocks: seq<seq<byte>>): Received
    requires |t| == 257
    decreases blocks
  {
    if blocks == [] then Received([], d)
    else
      var first := ParseBlock(t, blocks[0], d, EMPTY);
      if first.outcome != Complete then Lost
      else
        match ParseBlocks(t, first.table, blocks[1..])
        case Lost => Lost
        case Received(headers, d') => Received([first.header] + headers, d')
  }

  /** Regular names are not those of pseudo-headers, and lengths and indices stay within 32 bits all along. */
  ghost predicate BlocksSendable(t: CodeTable, d: Table, hs: seq<Header>)
    requires |t| == 257
    decreases hs
  {
    hs != [] ==>
      && RegularNames(hs[0]) && AllSendable(t, d, Emissions(hs[0]))
      && BlocksSendable(t, PrintAll(t, d, Emissions(hs[0])).table, hs[1..])
  }

  /** The headers as they arrive, by the sender's own table. */
  function Delivered(t: CodeTable, d: Table, hs: seq<Header>): (rs: seq<Header>)
    requires |t| == 257
    ensures |rs| == |hs|
    decreases hs
  {
    if hs == [] then []
    else
      var es := Emissions(hs[0]);
      [StoreList(EMPTY, Arrivals(t, d, es))] + Delivered(t, PrintAll(t, d, es).table, hs[1..])
  }

  lemma {:induction false} DeliveredSame(t: CodeTable, d: Table, hs: seq<Header>)
    requires |t| == 257 && forall i :: 0 <= i < |hs| ==> RegularNames(hs[i])
    ensures forall i :: 0 <= i < |hs| ==> SameHeader(Delivered(t, d, hs)[i], hs[i])
    decreases hs
  {
    hide Emissions, StoreList, SameHeader, PrintAll, RegularNames, AllSame;
    if hs != [] {
      var es := Emissions(hs[0]);
      ArrivalsAlike(t, d, es);
      SameEmpty();
      StoreListSame(EMPTY, EMPTY, Arrivals(t, d, es), Meanings(es));
      EmissionsMean(hs[0]);
      SameTrans(StoreList(EMPTY, Arrivals(t, d, es)), StoreList(EMPTY, Meanings(es)), hs[0]);
      DeliveredSame(t, PrintAll(t, d, es).table, hs[1..]);
    }
  }

  lemma SameTrans(a: Header, b: Header, c: Header)
    requires SameHeader(a, b) && SameHeader(b, c)
    ensures SameHeader(a, c)
  {
    hide Lower;
  }

  lemma {:induction false} SendableNames(t: CodeTable, d: Table, hs: seq<Header>)
    requires |t| == 257 && BlocksSendable(t, d, hs)
    ensures forall i :: 0 <= i < |hs| ==> RegularNames(hs[i])
    decreases hs
  {
    hide RegularNames, AllSendable, PrintAll, Emissions;
    if hs != [] {
      SendableNames(t, PrintAll(t, d, Emissions(hs[0])).table, hs[1..]);
    }
  }

  lemma {:induction false} ConnectionParses(t: CodeTable, hs: seq<Header>, a: Table, b: Table)
    requires ValidCode(t) && Counted(a) && InStep(a, b) && BlocksSendable(t, a, hs)
    ensures var sent := PrintBlocks(t, a, hs);
            var r := ParseBlocks(t, b, sent.blocks);
            && (r.Received? <==> forall i :: 0 <= i < |hs| ==> AllNonEmpty(Emissions(hs[i])))
            && (r.Received? ==> r.headers == Delivered(t, a, hs) && InStep(sent.table, r.table) && Counted(sent.table))
    decreases hs
  {
    hide PrintAll, ParseBlock, Emissions, AllSendable, StoreList, Arrivals, AllNonEmpty, InStep, Counted, PrefixFree, RegularNames;
    if hs != [] {
      var es := Emissions(hs[0]);
      BlockRoundTrip(t, es, a, b, EMPTY);
      if AllNonEmpty(es) {
        var first := PrintAll(t, a, es);
        ConnectionParses(t, hs[1..], first.table, ParseBlock(t, first.bytes, b, EMPTY).table);
        assert forall i :: 1 <= i < |hs| ==> hs[i] == hs[1..][i - 1];
      }
    }
  }

  /** Over any sequence of headers from tables in step: if no string sent is empty, every header comes back
      up to case, just as the sender's table says, and the tables are in step after every block, every prefix
      being a sequence too; if one is empty, the connection is lost. */
  lemma ConnectionRoundTrip(t: CodeTable, hs: seq<Header>, a: Table, b: Table)
    requires ValidCode(t) && Counted(a) && InStep(a, b) && BlocksSendable(t, a, hs)
    ensures var sent := PrintBlocks(t, a, hs);
            var r := ParseBlocks(t, b, sent.blocks);
            && (r.Received? <==> forall i :: 0 <= i < |hs| ==> AllNonEmpty(Emissions(hs[i])))
            && (r.Received? ==> |r.headers| == |hs| && (forall i :: 0 <= i < |hs| ==> SameHeader(r.headers[i], hs[i]))
                                && r.headers == Delivered(t, a, hs)
                                && InStep(sent.table, r.table) && Counted(sent.table))
  {
    hide PrintBlocks, ParseBlocks, Emissions, BlocksSendable, Delivered, AllNonEmpty, InStep, Counted, PrefixFree, SameHeader, RegularNames;
    ConnectionParses(t, hs, a, b);
    SendableNames(t, a, hs);
    DeliveredSame(t, a, hs);
  }

  /** By the sender's own table, every field of every header arrives spelled as it was given. */
  predicate AllKept(t: CodeTable, d: Table, hs: seq<Header>)
    requires |t| == 257
    decreases hs
  {
    hs != [] ==>
      var es := Emissions(hs[0]);
      AllAlike(Arrivals(t, d, es), Originals(hs[0])) && AllKept(t, PrintAll(t, d, es).table, hs[1..])
  }

  lemma {:induction false} DeliveredExactly(t: CodeTable, d: Table, hs: seq<Header>)
    requires |t| == 257 && forall i :: 0 <= i < |hs| ==> RegularNames(hs[i])
    ensures (forall i :: 0 <= i < |hs| ==> Delivered(t, d, hs)[i] == Plain(hs[i])) <==> AllKept(t, d, hs)
    decreases hs
  {
    hide Emissions, Originals, StoreList, PrintAll, RegularNames, AllSame, AllAlike, Plain, Meaningful, Meanings, Arrivals;
    if hs != [] {
      var es := Emissions(hs[0]);
      var d' := PrintAll(t, d, es).table;
      ArrivalsAlike(t, d, es);
      EmissionsStand(hs[0]);
      AllSameTrans(Arrivals(t, d, es), Meanings(es), Originals(hs[0]));
      HeaderKeptExactly(hs[0], Arrivals(t, d, es));
      DeliveredExactly(t, d', hs[1..]);
      assert forall i :: 1 <= i < |hs| ==> hs[i] == hs[1..][i - 1] && Delivered(t, d, hs)[i] == Delivered(t, d', hs[1..])[i - 1];
    }
  }

  /** Over a connection on which no string sent is empty, all headers come back byte for byte exactly if, for
      every field, what the sender settles for is spelled the same: the newest equal entry of its own table,
      the static table's name, or the constant form. */
  lemma CaseKeptExactly(t: CodeTable, hs: seq<Header>, a: Table, b: Table)
    requires ValidCode(t) && Counted(a) && InStep(a, b) && BlocksSendable(t, a, hs)
    requires forall i :: 0 <= i < |hs| ==> AllNonEmpty(Emissions(hs[i]))
    ensures var r := ParseBlocks(t, b, PrintBlocks(t, a, hs).blocks);
            && r.Received? && |r.headers| == |hs|
            && ((forall i :: 0 <= i < |hs| ==> r.headers[i] == Plain(hs[i])) <==> AllKept(t, a, hs))
  {
    hide PrintBlocks, ParseBlocks, Emissions, BlocksSendable, Delivered, AllNonEmpty, InStep, Counted, PrefixFree, RegularNames, Plain, AllKept;
    ConnectionParses(t, hs, a, b);
    SendableNames(t, a, hs);
    DeliveredExactly(t, a, hs);
  }

  /** Two new tables of the same size start in step. */
  lemma NewTablesInStep(maxSize: u32)
    ensures var d := Table(maxSize, 0, []); Counted(d) && InStep(d, d)
  {
  }

  // ---- a condition on the headers alone ----

  /** Short enough for its code to have a 32-bit length. */
  predicate Short(e: Emission) {
    e.Literal? ==> |e.name| < 0x4000_0000 && |e.value| < 0x4000_0000
  }

  predicate AllShort(es: seq<Emission>) {
    forall i :: 0 <= i < |es| ==> Short(es[i]) && Meaningful(es[i])
  }

  function Count(hs: seq<Header>): nat {
    if hs == [] then 0 else |Emissions(hs[0])| + Count(hs[1..])
  }

  lemma OneShort(t: CodeTable, d: Table, e: Emission)
    requires ValidCode(t) && Counted(d) && Short(e) && Meaningful(e) && 62 + |d.items| < TWO_32
    ensures Sendable(t, d, e)
    ensures var d' := PrintOne(t, d, e).table; Counted(d') && |d'.items| <= |d.items| + 1
  {
    hide Added, PrintOne, PrefixFree, Counted, Encode, Meaningful;
    TableAfter(t, d, e);
    if e.Literal? {
      EncodedLength(t, e.name);
      EncodedLength(t, e.value);
      AddKeepsCounted(d, e.name, e.value);
    }
  }

  lemma {:induction false} ShortIsSendable(t: CodeTable, d: Table, es: seq<Emission>)
    requires ValidCode(t) && Counted(d) && AllShort(es) && 62 + |d.items| + |es| <= TWO_32
    ensures AllSendable(t, d, es)
    ensures var d' := PrintAll(t, d, es).table; Counted(d') && |d'.items| <= |d.items| + |es|
    decreases es
  {
    hide PrintOne, Sendable, Counted, PrefixFree, Meaningful, Short;
    if es != [] {
      OneShort(t, d, es[0]);
      ShortIsSendable(t, PrintOne(t, d, es[0]).table, es[1..]);
    }
  }

  predicate ShortHeader(h: Header) {
    RegularNames(h) && forall i :: 0 <= i < |Emissions(h)| ==> Short(Emissions(h)[i])
  }

  /** Strings below 2^30 bytes, and fewer than 2^32 fields in all: nothing else is asked of headers, whatever
      the size of the table. */
  lemma {:induction false} ShortHeadersAreSendable(t: CodeTable, d: Table, hs: seq<Header>)
    requires ValidCode(t) && Counted(d) && 62 + |d.items| + Count(hs) <= TWO_32
    requires forall i :: 0 <= i < |hs| ==> ShortHeader(hs[i])
    ensures BlocksSendable(t, d, hs)
    decreases hs
  {
    hide PrintAll, Counted, PrefixFree, Emissions, Meaningful, Short, RegularNames, AllSendable, Originals, AllSame;
    if hs != [] {
      EmissionsStand(hs[0]);
      ShortIsSendable(t, d, Emissions(hs[0]));
      ShortHeadersAreSendable(t, PrintAll(t, d, Emissions(hs[0])).table, hs[1..]);
    }
  }

  /** The size the program gives both tables. */
  const DEFAULT_SIZE: u32 := 0xFFFF_FFFF

  /** As the program runs: two new tables of its default size, and any short headers, fewer than 2^32 fields
      in all. They come back up to case if and only if no string sent is empty. */
  lemma DefaultConnection(t: CodeTable, hs: seq<Header>)
    requires ValidCode(t) && 62 + Count(hs) <= TWO_32 && forall i :: 0 <= i < |hs| ==> ShortHeader(hs[i])
    ensures var d := Table(DEFAULT_SIZE, 0, []);
            var sent := PrintBlocks(t, d, hs);
            var r := ParseBlocks(t, d, sent.blocks);
            && (r.Received? <==> forall i :: 0 <= i < |hs| ==> AllNonEmpty(Emissions(hs[i])))
            && (r.Received? ==> |r.headers| == |hs| && (forall i :: 0 <= i < |hs| ==> SameHeader(r.headers[i], hs[i]))
                                && InStep(sent.table, r.table))
  {
    hide PrintBlocks, ParseBlocks, Emissions, BlocksSendable, Delivered, AllNonEmpty, InStep, Counted, PrefixFree, SameHeader, ShortHeader;
    var d := Table(DEFAULT_SIZE, 0, []);
    NewTablesInStep(DEFAULT_SIZE);
    ShortHeadersAreSendable(t, d, hs);
    ConnectionRoundTrip(t, hs, d, d);
  }

  /** What a table of that size holds, it keeps: printing only puts entries in front. */
  lemma {:induction false} NothingIsEvicted(t: CodeTable, d: Table, es: seq<Emission>)
    requires |t| == 257 && d.maxSize == DEFAULT_SIZE
    ensures var r := PrintAll(t, d, es).table;
            && r.maxSize == DEFAULT_SIZE && |r.items| >= |d.items| && r.items[|r.items| - |d.items|..] == d.items
    decreases es
  {
    hide PrintOne;
    if es != [] {
      var d1 := PrintOne(t, d, es[0]).table;
      OnlyExtends(t, d, es[0]);
      NothingIsEvicted(t, d1, es[1..]);
      var r := PrintAll(t, d1, es[1..]).table;
      assert r.items[|r.items| - |d1.items|..][|d1.items| - |d.items|..] == r.items[|r.items| - |d.items|..];
    }
  }

  lemma OnlyExtends(t: CodeTable, d: Table, e: Emission)
    requires |t| == 257 && d.maxSize == DEFAULT_SIZE
    ensures var r := PrintOne(t, d, e).table;
            && r.maxSize == DEFAULT_SIZE && |r.items| >= |d.items| && r.items[|r.items| - |d.items|..] == d.items
            && (|r.items| == |d.items| <==> Known(d, e)) && (Known(d, e) ==> r == d)
  {
    hide PrintOne, Find;
    TableAfter(t, d, e);
    if e.Literal? { NothingEvicted(d, e.name, e.value); }
  }

  predicate Known(d: Table, e: Emission) {
    e.Literal? ==> Find(d.items, e.name, e.value).Some?
  }

  lemma {:induction false} AddsNothingExactly(t: CodeTable, d: Table, es: seq<Emission>)
    requires |t| == 257 && d.maxSize == DEFAULT_SIZE
    ensures var r := PrintAll(t, d, es).table;
            if forall i :: 0 <= i < |es| ==> Known(d, es[i]) then r == d else |r.items| > |d.items|
    decreases es
  {
    hide PrintOne, Known;
    if es != [] {
      OnlyExtends(t, d, es[0]);
      var d1 := PrintOne(t, d, es[0]).table;
      AddsNothingExactly(t, d1, es[1..]);
      NothingIsEvicted(t, d1, es[1..]);
    }
  }

  /** When the receiver skips a block undecoded, the tables are in step afterwards exactly if every field of
      the block was in the sender's table already. */
  lemma SkippedBlockExactly(t: CodeTable, es: seq<Emission>, a: Table, b: Table)
    requires |t| == 257 && InStep(a, b) && a.maxSize == DEFAULT_SIZE
    ensures InStep(PrintAll(t, a, es).table, b) <==> forall i :: 0 <= i < |es| ==> Known(a, es[i])
  {
    hide SameItem, PrintAll, Known;
    AddsNothingExactly(t, a, es);
  }

  // ---- an instance ----

  /** After a field has been sent, the same name with a value that differs only in case is received with the
      first value. */
  lemma CaseIsLost(t: CodeTable, rest: seq<byte>)
    requires ValidCode(t)
    ensures var a, b := OneField(Ascii("a")), OneField(Spelling(Ascii("a")));
            && InStep(a, b)
            && ParseOne(t, PrintField(t, a, Ascii("a"), Ascii("x")).bytes + rest, b).field == Some(Field(Spelling(Ascii("a")), Ascii("X")))
            && Ascii("x") != Ascii("X")
  {
    hide Print, Parse, PrefixFree, Ascii, CaseEq, Spelling;
    FoundDespiteCase();
    IndexedRoundTrip(62, OneField(Spelling(Ascii("a"))), rest);
  }

  function OneField(name: CString): Table {
    Table(4096, 34, [Item(34, name, Ascii("X"))])
  }

  lemma FoundDespiteCase()
    ensures Find(OneField(Ascii("a")).items, Ascii("a"), Ascii("x")) == Some(0)
    ensures InStep(OneField(Ascii("a")), OneField(Spelling(Ascii("a")))) && Ascii("x") != Ascii("X") && Ascii("a") != []
  {
    hide Spelling;
    assert Lower(Ascii("X")) == Lower(Ascii("x")) == [120];
    assert Ascii("x")[0] == 120 && Ascii("X")[0] == 88;
  }
}
