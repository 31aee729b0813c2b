/** What the header blocks of any peer come to: every representation of section 6 of RFC 7541, in every form
    the standard allows and not only those the program prints, src/http2/co_http2_hpack.c:723-935. */
module HpackWire {
  import opened Machine
  import opened CStrings
  import opened PrefixInt
  import opened DynamicTable
  import opened Huffman
  import opened Hpack
  import StaticTable
  import R = HpackRoundTrip

  /** Sections 6.2.1 to 6.2.3. */
  datatype Kind = Indexing | Without | Never

  datatype NameRef = ByIndex(index: u32) | Spelled(coded: bool, text: seq<byte>)

  /** `coded` is the choice of the Huffman code; strings are any bytes. */
  datatype Rep =
    | Whole(index: u32)
    | Pair(kind: Kind, name: NameRef, coded: bool, value: seq<byte>)
    | Size(size: u32)

  // ---- on the wire ----

  function Head(kind: Kind, index: u32): seq<byte> {
    match kind
    case Indexing => Print(63, true, index)
    case Without => Print(15, false, index)
    case Never => Print(15, true, index)
  }

  function Wire(t: CodeTable, rep: Rep): seq<byte>
    requires |t| == 257
  {
    match rep
    case Whole(index) => Print(127, true, index)
    case Pair(kind, ByIndex(index), coded, value) => Head(kind, index) + StringBytes(t, coded, value)
    case Pair(kind, Spelled(nameCoded, text), coded, value) =>
      Head(kind, 0) + StringBytes(t, nameCoded, text) + StringBytes(t, coded, value)
    case Size(size) => Print(31, true, size)
  }

  /** The first byte as the standard draws it. */
  lemma FirstBits(t: CodeTable, rep: Rep)
    requires |t| == 257
    ensures var b := Wire(t, rep)[0];
            match rep
            case Whole(index) => b == 0x80 + Min(index, 127)
            case Pair(Indexing, ByIndex(index), _, _) => b == 0x40 + Min(index, 63)
            case Pair(Without, ByIndex(index), _, _) => b == Min(index, 15)
            case Pair(Never, ByIndex(index), _, _) => b == 0x10 + Min(index, 15)
            case Pair(Indexing, Spelled(_, _), _, _) => b == 0x40
            case Pair(Without, Spelled(_, _), _, _) => b == 0
            case Pair(Never, Spelled(_, _), _, _) => b == 0x10
            case Size(size) => b == 0x20 + Min(size, 31)
  {
    hide StringBytes, Tail;
  }

  /** Lengths that 32 bits can hold. */
  ghost predicate Fits(t: CodeTable, rep: Rep)
    requires |t| == 257
  {
    match rep
    case Pair(_, name, _, value) => StringFits(t, value) && (name.Spelled? ==> StringFits(t, name.text))
    case _ => true
  }

  ghost predicate StringFits(t: CodeTable, s: seq<byte>)
    requires |t| == 257
  {
    |s| < TWO_32 && |Encode(t, s)| < TWO_32
  }

  // ---- what it stands for ----

  /** The field a literal gives, if its name is known and no string is empty and Huffman-coded. */
  function FieldOf(d: Table, name: NameRef, coded: bool, value: seq<byte>): Option<Field> {
    if coded && value == [] then None
    else
      match name
      case Spelled(nameCoded, text) => if nameCoded && text == [] then None else Some(Field(CStr(text), CStr(value)))
      case ByIndex(index) =>
        if index == 0 then None
        else if index <= 61 then Some(Field(StaticTable.Name(index - 1), CStr(value)))
        else if index - 62 < |d.items| then Some(Field(d.items[index - 62].name, CStr(value)))
        else None
  }

  /** `Refused` ends the block; `Gap` is the index of a static entry that has no value in the program. */
  datatype Meant = Refused | Gap | Gives(field: Option<Field>, table: Table)

  function Meaning(d: Table, rep: Rep): Meant {
    match rep
    case Whole(index) =>
      if index == 0 then Refused
      else if index <= 61 then
        (match StaticTable.Value(index - 1)
         case None => Gap
         case Some(value) => Gives(Some(Field(StaticTable.Name(index - 1), value)), d))
      else if index - 62 < |d.items| then Gives(Some(Field(d.items[index - 62].name, d.items[index - 62].value)), d)
      else Refused
    case Pair(kind, name, coded, value) =>
      (match FieldOf(d, name, coded, value)
       case None => Refused
       case Some(f) => Gives(Some(f), if kind == Indexing then Added(d, f.name, f.value) else d))
    case Size(size) => Gives(None, Resized(d, size))
  }

  function Expected(m: Meant, used: nat): Parsed {
    match m
    case Refused => Malformed
    case Gap => Undefined
    case Gives(field, table) => Parsed(field, table, used)
  }

  // ---- one representation ----

  /** The one exception: a literal with index 0 and no name, which no representation has on the wire. */
  predicate Proper(rep: Rep) {
    rep.Pair? && rep.name.ByIndex? ==> rep.name.index != 0
  }

  lemma WholeDecodes(t: CodeTable, index: u32, d: Table, rest: seq<byte>)
    requires |t| == 257
    ensures var bytes := Wire(t, Whole(index));
            ParseOne(t, bytes + rest, d) == Expected(Meaning(d, Whole(index)), |bytes|)
  {
    hide Parse, StaticTable.Name, StaticTable.Value, Print;
    PrefixInt.RoundTrip(127, true, index, rest);
  }

  /** A literal as its parser sees it. */
  lemma PairParses(t: CodeTable, rep: Rep, d: Table, rest: seq<byte>)
    requires ValidCode(t) && rep.Pair? && Fits(t, rep) && Proper(rep)
    ensures var bytes := Wire(t, rep);
            ParseField(t, if rep.kind == Indexing then 63 else 15, bytes + rest, d) ==
              match FieldOf(d, rep.name, rep.coded, rep.value)
              case None => NoField
              case Some(f) => ParsedField(f.name, f.value, |bytes|)
  {
    hide Print, ParseField, StringBytes, Encode, StaticTable.Name, PrefixFree, CStr;
    var bitMax: byte := if rep.kind == Indexing then 63 else 15;
    var flagged := rep.kind != Without;
    match rep.name {
      case ByIndex(index) =>
        R.IndexedNameRoundTrip(t, bitMax, flagged, index, rep.coded, rep.value, d, rest);
      case Spelled(nameCoded, text) =>
        R.NewNameRoundTrip(t, bitMax, flagged, nameCoded, text, rep.coded, rep.value, d, rest);
    }
  }

  /** Whatever representation a peer sends, in whatever form, in front of whatever: it gives exactly the field
      it stands for, changes the table as the standard says, and uses exactly its bytes. */
  lemma Decodes(t: CodeTable, rep: Rep, d: Table, rest: seq<byte>)
    requires ValidCode(t) && Counted(d) && Fits(t, rep) && Proper(rep)
    ensures var bytes := Wire(t, rep);
            bytes != [] && ParseOne(t, bytes + rest, d) == Expected(Meaning(d, rep), |bytes|)
  {
    hide Parse, ParseField, ParseIndexed, Print, StringBytes, Encode, StaticTable.Name, StaticTable.Value, PrefixFree, Added, Resized,
         EvictSafe, Extended, Counted, CStr, Fits, FieldOf;
    FirstBits(t, rep);
    match rep {
      case Whole(index) => WholeDecodes(t, index, d, rest);
      case Pair(kind, name, coded, value) =>
        PairParses(t, rep, d, rest);
        var f := FieldOf(d, name, coded, value);
        if f.Some? { AddKeepsCounted(d, f.value.name, f.value.value); }
      case Size(size) =>
        PrefixInt.RoundTrip(31, true, size, rest);
        ResizeKeepsCounted(d, size);
    }
  }

  /** A size update leaves the longest newest-first prefix that fits, with its true total. */
  lemma SizeDecodes(t: CodeTable, size: u32, d: Table, rest: seq<byte>)
    requires ValidCode(t) && Sound(d)
    ensures var bytes := Wire(t, Size(size)); var r := ParseOne(t, bytes + rest, d);
            && r.Parsed? && r.field == None && r.used == |bytes|
            && r.table.maxSize == size && Sound(r.table) && LongestFit(r.table.items, d.items, size)
  {
    hide ParseOne, Resized, Sound, LongestFit, PrefixFree, Wire;
    SoundIsCounted(d);
    Decodes(t, Size(size), d, rest);
    ResizeKeepsSound(d, size);
    BoundOf(d, size);
  }

  lemma BoundOf(d: Table, size: u32)
    ensures Resized(d, size).maxSize == size
  {
    if size != 0 { EvictKeepsBound(d.(maxSize := size)); }
  }

  lemma {:induction false} EvictKeepsBound(d: Table)
    ensures Evict(d).maxSize == d.maxSize
    decreases |d.items|
  {
    if d.totalSize > d.maxSize && d.items != [] {
      EvictKeepsBound(WithoutOldest(d));
    }
  }

  // ---- whole blocks ----

  function WireAll(t: CodeTable, reps: seq<Rep>): seq<byte>
    requires |t| == 257
  {
    if reps == [] then [] else Wire(t, reps[0]) + WireAll(t, reps[1..])
  }

  /** The header and the table after the representations, one after the other. */
  function Read(d: Table, h: Header, reps: seq<Rep>): Block
    decreases reps
  {
    if reps == [] then Block(Complete, h, d)
    else
      match Meaning(d, reps[0])
      case Refused => Block(Broken, h, d)
      case Gap => Block(Unspecified, h, d)
      case Gives(field, d') => Read(d', StoreOption(h, field), reps[1..])
  }

  lemma MeaningKeepsCounted(d: Table, rep: Rep)
    requires Counted(d)
    ensures var m := Meaning(d, rep); m.Gives? ==> Counted(m.table)
  {
    hide Counted, Added, Resized, EvictSafe, Extended, StaticTable.Name, StaticTable.Value, CStr, FieldOf;
    match rep {
      case Whole(_) =>
      case Pair(_, name, coded, value) =>
        var f := FieldOf(d, name, coded, value);
        if f.Some? { AddKeepsCounted(d, f.value.name, f.value.value); }
      case Size(size) => ResizeKeepsCounted(d, size);
    }
  }

  /** A block of any representations is read one by one, to the end or to the first that is refused. */
  lemma {:induction false} BlockDecodes(t: CodeTable, reps: seq<Rep>, d: Table, h: Header)
    requires ValidCode(t) && Counted(d)
    requires forall k :: 0 <= k < |reps| ==> Fits(t, reps[k]) && Proper(reps[k])
    ensures ParseBlock(t, WireAll(t, reps), d, h) == Read(d, h, reps)
    decreases reps
  {
    hide ParseOne, Wire, Meaning, Fits, Proper, Counted, PrefixFree, StoreOption;
    if reps != [] {
      var bytes := Wire(t, reps[0]);
      var rest := WireAll(t, reps[1..]);
      Decodes(t, reps[0], d, rest);
      assert (bytes + rest)[|bytes|..] == rest;
      MeaningKeepsCounted(d, reps[0]);
      match Meaning(d, reps[0]) {
        case Gives(field, d') => BlockDecodes(t, reps[1..], d', StoreOption(h, field));
        case _ =>
      }
    }
  }
}
