/**
 The CSV form of call detail records (src/cdr/types.rs), and decoders for it
 after section 2 of RFC 4180: a field in double quotes may hold commas, line
 breaks and doubled quotes; a field without quotes runs to the next comma.
 Read strictly, a field without quotes may hold no quote and no line break
 character; read leniently, it may.
 */
module Csv {
  import opened Wrappers
  import Decimal

  predicate NeedsQuotes(f: string) {
    ',' in f || '"' in f || '\n' in f
  }

  /** Doubles every quote. */
  function Escape(f: string): string {
    if f == "" then "" else (if f[0] == '"' then "\"\"" else [f[0]]) + Escape(f[1..])
  }

  function Field(f: string): string {
    if NeedsQuotes(f) then "\"" + (Escape(f) + "\"") else f
  }

  function Line(fields: seq<string>): string {
    if fields == [] then ""
    else if |fields| == 1 then Field(fields[0])
    else Field(fields[0]) + ("," + Line(fields[1..]))
  }

  // -------------------------------------------------------------------------
  // Decoding
  // -------------------------------------------------------------------------

  datatype Cut = Cut(field: string, rest: string)

  /** A quoted field, after its opening quote, and what follows its closing quote. */
  function CutQuoted(s: string): (r: Option<Cut>)
    ensures r.Some? ==> |r.value.rest| < |s|
  {
    if s == "" then None
    else if s[0] == '"' then
      if |s| > 1 && s[1] == '"' then
        var r := CutQuoted(s[2..]);
        if r.None? then None else Some(Cut(['"'] + r.value.field, r.value.rest))
      else Some(Cut("", s[1..]))
    else
      var r := CutQuoted(s[1..]);
      if r.None? then None else Some(Cut([s[0]] + r.value.field, r.value.rest))
  }

  /** Everything up to the first comma, and the rest from that comma on. */
  function CutPlain(s: string): (r: Cut)
    ensures |r.rest| <= |s|
  {
    if s == "" || s[0] == ',' then Cut("", s)
    else
      var r := CutPlain(s[1..]);
      Cut([s[0]] + r.field, r.rest)
  }

  predicate IsText(f: string) {
    '"' !in f && '\r' !in f && '\n' !in f
  }

  function CutField(s: string, strict: bool): (r: Option<Cut>)
    ensures r.Some? ==> |r.value.rest| <= |s|
  {
    if s != "" && s[0] == '"' then CutQuoted(s[1..])
    else if strict && !IsText(CutPlain(s).field) then None
    else Some(CutPlain(s))
  }

  function Decode(s: string, strict: bool): Option<seq<string>>
    decreases |s|
  {
    var cut := CutField(s, strict);
    if cut.None? then None
    else if cut.value.rest == "" then Some([cut.value.field])
    else if cut.value.rest[0] != ',' then None
    else
      var others := Decode(cut.value.rest[1..], strict);
      if others.None? then None else Some([cut.value.field] + others.value)
  }

  // -------------------------------------------------------------------------
  // Round trips
  // -------------------------------------------------------------------------

  lemma CutDoubledQuote(rest: string, cut: Cut)
    requires CutQuoted(rest) == Some(cut)
    ensures CutQuoted("\"\"" + rest) == Some(Cut(['"'] + cut.field, cut.rest))
  {
    var s := "\"\"" + rest;
    assert s[2..] == rest;
  }

  lemma CutCharacter(c: char, rest: string, cut: Cut)
    requires c != '"' && CutQuoted(rest) == Some(cut)
    ensures CutQuoted([c] + rest) == Some(Cut([c] + cut.field, cut.rest))
  {
    var s := [c] + rest;
    assert s[1..] == rest;
  }

  lemma CutClosingQuote(tail: string)
    requires tail == "" || tail[0] != '"'
    ensures CutQuoted("\"" + tail) == Some(Cut("", tail))
  {
    var s := "\"" + tail;
    assert s[1..] == tail;
  }

  lemma Associative(a: string, b: string, c: string)
    ensures (a + b) + c == a + (b + c)
  {}

  lemma {:induction false} CutEscaped(f: string, tail: string)
    requires tail == "" || tail[0] != '"'
    ensures CutQuoted(Escape(f) + ("\"" + tail)) == Some(Cut(f, tail))
  {
    var end := "\"" + tail;
    if f == "" {
      CutClosingQuote(tail);
      assert Escape(f) + end == end;
    } else {
      CutEscaped(f[1..], tail);
      var rest := Escape(f[1..]);
      var first := if f[0] == '"' then "\"\"" else [f[0]];
      Associative(first, rest, end);
      assert f == [f[0]] + f[1..];
      if f[0] == '"' {
        CutDoubledQuote(rest + end, Cut(f[1..], tail));
      } else {
        CutCharacter(f[0], rest + end, Cut(f[1..], tail));
      }
    }
  }

  lemma {:induction false} CutUnquoted(f: string, tail: string)
    requires ',' !in f && (tail == "" || tail[0] == ',')
    ensures CutPlain(f + tail) == Cut(f, tail)
  {
    if f == "" {
      assert f + tail == tail;
    } else {
      CutUnquoted(f[1..], tail);
      assert (f + tail)[1..] == f[1..] + tail;
      assert f == [f[0]] + f[1..];
    }
  }

  /** A field with a carriage return that printing leaves bare. */
  predicate BareReturn(f: string) {
    '\r' in f && !NeedsQuotes(f)
  }

  /** A printed field is cut off whole, except strictly where it has a bare carriage return. */
  lemma CutPrinted(f: string, tail: string, strict: bool)
    requires tail == "" || tail[0] == ','
    ensures CutField(Field(f) + tail, strict) == if strict && BareReturn(f) then None else Some(Cut(f, tail))
  {
    if NeedsQuotes(f) {
      CutPrintedQuoted(f, tail, strict);
    } else {
      CutPrintedPlain(f, tail, strict);
    }
  }

  lemma CutPrintedQuoted(f: string, tail: string, strict: bool)
    requires (tail == "" || tail[0] == ',') && NeedsQuotes(f)
    ensures CutField(Field(f) + tail, strict) == Some(Cut(f, tail))
  {
    var end := Escape(f) + "\"";
    CutEscaped(f, tail);
    Associative(Escape(f), "\"", tail);
    Associative("\"", end, tail);
    var s := "\"" + (end + tail);
    assert s[0] == '"' && s[1..] == end + tail;
  }

  lemma CutPrintedPlain(f: string, tail: string, strict: bool)
    requires (tail == "" || tail[0] == ',') && !NeedsQuotes(f)
    ensures CutField(f + tail, strict) == if strict && '\r' in f then None else Some(Cut(f, tail))
  {
    var s := f + tail;
    CutUnquoted(f, tail);
    assert s != "" ==> s[0] == if f != "" then f[0] else tail[0];
    assert f != "" ==> f[0] in f;
  }

  predicate AnyBareReturn(fields: seq<string>) {
    exists i | 0 <= i < |fields| :: BareReturn(fields[i])
  }

  lemma AnyBareReturnSplits(first: string, others: seq<string>)
    ensures AnyBareReturn([first] + others) <==> BareReturn(first) || AnyBareReturn(others)
  {
    var fields := [first] + others;
    assert fields[0] == first;
    assert forall i | 0 <= i < |others| :: fields[i + 1] == others[i];
    assert forall i | 0 < i < |fields| :: fields[i] == others[i - 1];
  }

  /** Decoding a printed field and a comma decodes what follows. */
  lemma DecodeFirst(f: string, line: string, strict: bool)
    ensures Decode(Field(f) + ("," + line), strict) ==
            if (strict && BareReturn(f)) || Decode(line, strict).None? then None
            else Some([f] + Decode(line, strict).value)
  {
    var tail := "," + line;
    CutPrinted(f, tail, strict);
    assert tail[1..] == line;
  }

  lemma DecodeOnly(f: string, strict: bool)
    ensures Decode(Field(f), strict) == if strict && BareReturn(f) then None else Some([f])
  {
    CutPrinted(f, "", strict);
    assert Field(f) + "" == Field(f);
  }

  lemma {:induction false} DecodeLine(fields: seq<string>, strict: bool)
    requires fields != []
    ensures Decode(Line(fields), strict) == if strict && AnyBareReturn(fields) then None else Some(fields)
    decreases |fields|
  {
    var first, others := fields[0], fields[1..];
    assert fields == [first] + others;
    AnyBareReturnSplits(first, others);
    if |fields| == 1 {
      DecodeOnly(first, strict);
      assert others == [] && fields == [first];
    } else {
      DecodeLine(others, strict);
      DecodeFirst(first, Line(others), strict);
    }
  }

  /** Decoding leniently gives back every list of fields there is. */
  lemma LenientRoundTrip(fields: seq<string>)
    requires fields != []
    ensures Decode(Line(fields), false) == Some(fields)
  {
    DecodeLine(fields, false);
  }

  /**
   Decoding strictly gives the fields back if and only if none of them has a
   carriage return without also having a comma, a quote or a line feed.
   */
  lemma StrictRoundTripIff(fields: seq<string>)
    requires fields != []
    ensures Decode(Line(fields), true) == Some(fields) <==> forall i | 0 <= i < |fields| :: !BareReturn(fields[i])
  {
    DecodeLine(fields, true);
    assert AnyBareReturn(fields) <==> exists i | 0 <= i < |fields| :: BareReturn(fields[i]);
  }

  /** A field that strict decoding loses. */
  lemma ReturnIsLost()
    ensures Decode(Line(["a\rb"]), true) == None
  {
    DecodeLine(["a\rb"], true);
    assert "a\rb"[1] == '\r';
    assert BareReturn(["a\rb"][0]);
  }

  /** Different lists of fields print differently, whatever their lengths. */
  lemma LineInjective(a: seq<string>, b: seq<string>)
    requires a != [] && b != []
    ensures Line(a) == Line(b) <==> a == b
  {
    LenientRoundTrip(a);
    LenientRoundTrip(b);
  }

  // -------------------------------------------------------------------------
  // Records
  // -------------------------------------------------------------------------

  datatype CdrType = Submit | Delivery | MobileOriginated | Query

  /** The fields of a record that are printed. */
  datatype Cdr = Cdr(
    cdrType: CdrType, messageId: string, smscMessageId: Option<string>, timestamp: string, esmeId: string,
    sourceAddr: string, destAddr: string, messageLength: nat, segments: nat, route: Option<string>,
    endpoint: Option<string>, deliveryStatus: Option<string>, statusCode: nat, latencyMs: Option<nat>,
    cost: Option<int>, revenue: Option<int>, currency: Option<string>, countryCode: Option<string>,
    network: Option<string>)

  function TypeName(t: CdrType): string {
    match t
    case Submit => "Submit"
    case Delivery => "Delivery"
    case MobileOriginated => "MobileOriginated"
    case Query => "Query"
  }

  function OrEmpty(s: Option<string>): string {
    if s.Some? then s.value else ""
  }

  function PrintNat(n: Option<nat>): string {
    if n.Some? then Decimal.Print(n.value) else ""
  }

  function PrintOptional(n: Option<int>): string {
    if n.Some? then Decimal.PrintInt(n.value) else ""
  }

  function Columns(c: Cdr): seq<string> {
    [TypeName(c.cdrType), c.messageId, OrEmpty(c.smscMessageId), c.timestamp, c.esmeId, c.sourceAddr, c.destAddr,
     Decimal.Print(c.messageLength), Decimal.Print(c.segments), OrEmpty(c.route), OrEmpty(c.endpoint),
     OrEmpty(c.deliveryStatus), Decimal.Print(c.statusCode), PrintNat(c.latencyMs), PrintOptional(c.cost),
     PrintOptional(c.revenue), OrEmpty(c.currency), OrEmpty(c.countryCode), OrEmpty(c.network)]
  }

  function ToCsvLine(c: Cdr): string {
    Line(Columns(c))
  }

  /** The record with every absent text written as an empty one. */
  function Shown(c: Cdr): Cdr {
    c.(smscMessageId := Some(OrEmpty(c.smscMessageId)), route := Some(OrEmpty(c.route)),
       endpoint := Some(OrEmpty(c.endpoint)), deliveryStatus := Some(OrEmpty(c.deliveryStatus)),
       currency := Some(OrEmpty(c.currency)), countryCode := Some(OrEmpty(c.countryCode)),
       network := Some(OrEmpty(c.network)))
  }

  lemma TypeNameInjective(a: CdrType, b: CdrType)
    requires TypeName(a) == TypeName(b)
    ensures a == b
  {
    assert TypeName(a)[0] == TypeName(b)[0];
  }

  lemma PrintNatInjective(a: Option<nat>, b: Option<nat>)
    requires PrintNat(a) == PrintNat(b)
    ensures a == b
  {
    if a.Some? && b.Some? {
      Decimal.PrintInjective(a.value, b.value);
    }
  }

  lemma PrintOptionalInjective(a: Option<int>, b: Option<int>)
    requires PrintOptional(a) == PrintOptional(b)
    ensures a == b
  {
    if a.Some? && b.Some? {
      Decimal.PrintIntInjective(a.value, b.value);
    }
  }

  /**
   Two records print alike if and only if they agree in every printed field, an
   absent text counting as an empty one; an absent number never prints like a
   present one.
   */
  lemma RecordsPrintAlikeIff(a: Cdr, b: Cdr)
    ensures ToCsvLine(a) == ToCsvLine(b) <==> Shown(a) == Shown(b)
  {
    LineInjective(Columns(a), Columns(b));
    if Columns(a) == Columns(b) {
      ColumnsDetermineRecord(a, b);
    } else {
      assert Columns(Shown(a)) == Columns(a) && Columns(Shown(b)) == Columns(b);
    }
  }

  lemma ColumnsDetermineRecord(a: Cdr, b: Cdr)
    requires Columns(a) == Columns(b)
    ensures Shown(a) == Shown(b)
  {
    var x, y := Columns(a), Columns(b);
    assert x[0] == y[0] && x[1] == y[1] && x[2] == y[2] && x[3] == y[3] && x[4] == y[4];
    assert x[5] == y[5] && x[6] == y[6] && x[7] == y[7] && x[8] == y[8] && x[9] == y[9];
    assert x[10] == y[10] && x[11] == y[11] && x[12] == y[12] && x[13] == y[13] && x[14] == y[14];
    assert x[15] == y[15] && x[16] == y[16] && x[17] == y[17] && x[18] == y[18];
    TypeNameInjective(a.cdrType, b.cdrType);
    Decimal.PrintInjective(a.messageLength, b.messageLength);
    Decimal.PrintInjective(a.segments, b.segments);
    Decimal.PrintInjective(a.statusCode, b.statusCode);
    PrintNatInjective(a.latencyMs, b.latencyMs);
    PrintOptionalInjective(a.cost, b.cost);
    PrintOptionalInjective(a.revenue, b.revenue);
  }

  // -------------------------------------------------------------------------
  // The header line
  // -------------------------------------------------------------------------

  datatype Column =
    | Type | MessageId | SmscMessageId | Timestamp | EsmeId | SourceAddr | DestAddr | MessageLength | Segments | Route
    | Endpoint | DeliveryStatus | StatusCode | LatencyMs | Cost | Revenue | Currency | CountryCode | Network

  const HEADER: seq<Column> :=
    [Type, MessageId, SmscMessageId, Timestamp, EsmeId, SourceAddr, DestAddr, MessageLength, Segments, Route,
     Endpoint, DeliveryStatus, StatusCode, LatencyMs, Cost, Revenue, Currency, CountryCode, Network]

  function ColumnName(column: Column): string {
    match column
    case Type => "type"
    case MessageId => "message_id"
    case SmscMessageId => "smsc_message_id"
    case Timestamp => "timestamp"
    case EsmeId => "esme_id"
    case SourceAddr => "source_addr"
    case DestAddr => "dest_addr"
    case MessageLength => "message_length"
    case Segments => "segments"
    case Route => "route"
    case Endpoint => "endpoint"
    case DeliveryStatus => "delivery_status"
    case StatusCode => "status_code"
    case LatencyMs => "latency_ms"
    case Cost => "cost"
    case Revenue => "revenue"
    case Currency => "currency"
    case CountryCode => "country_code"
    case Network => "network"
  }

  function HeaderNames(): seq<string> {
    seq(|HEADER|, i requires 0 <= i < |HEADER| => ColumnName(HEADER[i]))
  }

  function CsvHeader(): string {
    Line(HeaderNames())
  }

  /** A number in a column, or an empty column for an absent one. */
  predicate ShowsNat(text: string, n: Option<nat>) {
    if n.None? then text == "" else Decimal.ParseUnsigned(text, n.value + 1) == n
  }

  predicate ShowsInt(text: string, n: Option<int>) {
    if n.None? then text == "" else text == Decimal.PrintInt(n.value)
  }

  predicate ShowsText(text: string, t: Option<string>) {
    text == if t.None? then "" else t.value
  }

  predicate ShowsType(text: string, t: CdrType) {
    match t
    case Submit => text == "Submit"
    case Delivery => text == "Delivery"
    case MobileOriginated => text == "MobileOriginated"
    case Query => text == "Query"
  }

  /** The text shows what the record has under this name. */
  predicate Shows(text: string, c: Cdr, column: Column) {
    match column
    case Type => ShowsType(text, c.cdrType)
    case MessageId => text == c.messageId
    case SmscMessageId => ShowsText(text, c.smscMessageId)
    case Timestamp => text == c.timestamp
    case EsmeId => text == c.esmeId
    case SourceAddr => text == c.sourceAddr
    case DestAddr => text == c.destAddr
    case MessageLength => ShowsNat(text, Some(c.messageLength))
    case Segments => ShowsNat(text, Some(c.segments))
    case Route => ShowsText(text, c.route)
    case Endpoint => ShowsText(text, c.endpoint)
    case DeliveryStatus => ShowsText(text, c.deliveryStatus)
    case StatusCode => ShowsNat(text, Some(c.statusCode))
    case LatencyMs => ShowsNat(text, c.latencyMs)
    case Cost => ShowsInt(text, c.cost)
    case Revenue => ShowsInt(text, c.revenue)
    case Currency => ShowsText(text, c.currency)
    case CountryCode => ShowsText(text, c.countryCode)
    case Network => ShowsText(text, c.network)
  }

  lemma NatIsShown(n: nat)
    ensures ShowsNat(Decimal.Print(n), Some(n))
  {
    Decimal.ParsePrint(n, n + 1);
  }

  /** The i-th field shows what the record has under the i-th name. */
  predicate Stands(c: Cdr, i: nat) {
    i < |HEADER| == |Columns(c)| && Shows(Columns(c)[i], c, HEADER[i])
  }

  lemma NumberStands(c: Cdr, i: nat, n: nat)
    requires i == 7 || i == 8 || i == 12
    requires n == if i == 7 then c.messageLength else if i == 8 then c.segments else c.statusCode
    ensures Stands(c, i)
  {
    NatIsShown(n);
    assert Columns(c)[i] == Decimal.Print(n);
  }

  lemma LatencyStands(c: Cdr)
    ensures Stands(c, 13)
  {
    if c.latencyMs.Some? {
      NatIsShown(c.latencyMs.value);
    }
    assert Columns(c)[13] == PrintNat(c.latencyMs);
  }

  lemma IdsStand(c: Cdr)
    ensures Stands(c, 0) && Stands(c, 1) && Stands(c, 2) && Stands(c, 3)
  {}

  lemma PartiesStand(c: Cdr)
    ensures Stands(c, 4) && Stands(c, 5) && Stands(c, 6)
  {}

  lemma RouteStands(c: Cdr)
    ensures Stands(c, 9) && Stands(c, 10) && Stands(c, 11)
  {}

  lemma MoneyStands(c: Cdr)
    ensures Stands(c, 14) && Stands(c, 15)
  {}

  lemma PlacesStand(c: Cdr)
    ensures Stands(c, 16) && Stands(c, 17) && Stands(c, 18)
  {}

  lemma NineteenOf(p: nat -> bool, i: nat)
    requires p(0) && p(1) && p(2) && p(3) && p(4) && p(5) && p(6) && p(7) && p(8) && p(9) && p(10) && p(11) && p(12)
    requires p(13) && p(14) && p(15) && p(16) && p(17) && p(18) && i < 19
    ensures p(i)
  {}

  lemma ColumnStands(c: Cdr, i: nat)
    requires i < 19
    ensures Stands(c, i)
  {
    IdsStand(c);
    PartiesStand(c);
    RouteStands(c);
    MoneyStands(c);
    PlacesStand(c);
    LatencyStands(c);
    NumberStands(c, 7, c.messageLength);
    NumberStands(c, 8, c.segments);
    NumberStands(c, 12, c.statusCode);
    NineteenOf((k: nat) => Stands(c, k), i);
  }

  predicate IsNameLetter(c: char) {
    'a' <= c <= 'z' || c == '_'
  }

  lemma FirstNamesAreLetters(column: Column)
    requires column.Type? || column.MessageId? || column.SmscMessageId? || column.Timestamp? || column.EsmeId?
             || column.SourceAddr? || column.DestAddr? || column.MessageLength? || column.Segments? || column.Route?
    ensures forall i | 0 <= i < |ColumnName(column)| :: IsNameLetter(ColumnName(column)[i])
  {}

  lemma LastNamesAreLetters(column: Column)
    requires column.Endpoint? || column.DeliveryStatus? || column.StatusCode? || column.LatencyMs? || column.Cost?
             || column.Revenue? || column.Currency? || column.CountryCode? || column.Network?
    ensures forall i | 0 <= i < |ColumnName(column)| :: IsNameLetter(ColumnName(column)[i])
  {}

  lemma LettersArePlain(name: string)
    requires forall i | 0 <= i < |name| :: IsNameLetter(name[i])
    ensures !BareReturn(name)
  {}

  lemma NameIsPlain(column: Column)
    ensures !BareReturn(ColumnName(column))
  {
    if column.Endpoint? || column.DeliveryStatus? || column.StatusCode? || column.LatencyMs? || column.Cost?
       || column.Revenue? || column.Currency? || column.CountryCode? || column.Network? {
      LastNamesAreLetters(column);
    } else {
      FirstNamesAreLetters(column);
    }
    LettersArePlain(ColumnName(column));
  }

  /**
   The header line is read back, even strictly, as one name per column, and a
   printed record as one field per name, which shows what the record has under it.
   */
  lemma FieldsStandUnderTheirNames(c: Cdr) returns (names: seq<string>, fields: seq<string>)
    ensures Decode(CsvHeader(), true) == Some(names) && Decode(ToCsvLine(c), false) == Some(fields)
    ensures |names| == |fields| == |HEADER|
    ensures forall i | 0 <= i < |HEADER| :: names[i] == ColumnName(HEADER[i]) && Shows(fields[i], c, HEADER[i])
  {
    names, fields := HeaderNames(), Columns(c);
    forall i | 0 <= i < |names| ensures !BareReturn(names[i]) {
      NameIsPlain(HEADER[i]);
    }
    StrictRoundTripIff(names);
    LenientRoundTrip(fields);
    forall i | 0 <= i < |HEADER| ensures Shows(fields[i], c, HEADER[i]) {
      ColumnStands(c, i);
    }
  }
}
