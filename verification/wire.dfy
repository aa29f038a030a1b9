/** The wire format of core/src/network/webrtc.rs and core/src/structs.rs: JSON header, NUL, payload. */
module Wire {
  import opened Basics
  import opened Names

  datatype Action = Noop | Forward | Advertise | AdvertiseResponse | RibGet | RibReply | Nack | Control

  type Usize = x: int | 0 <= x < 0x1_0000_0000_0000_0000

  datatype Header = Header(action: Action, destination: Name, length: Usize)

  /** record: the JSON text of the name record; None when there is none, or it cannot be serialised. */
  datatype Packet = Packet(action: Action, gdpname: Name, source: Name, payload: Option<Text>, record: Option<Text>)

  function OrEmpty(t: Option<Text>): Text {
    match t
    case Some(b) => b
    case None => []
  }

  /** Payload then record. */
  function Body(p: Packet): Text {
    OrEmpty(p.payload) + OrEmpty(p.record)
  }

  /** get_header; a body that does not fit a usize cannot exist in memory. */
  function GetHeader(p: Packet): Header
    requires |Body(p)| < 0x1_0000_0000_0000_0000
  {
    Header(p.action, p.gdpname, |OrEmpty(p.payload)| + |OrEmpty(p.record)|)
  }

  // ----- the header as JSON -----

  function Ascii(s: string): Text {
    seq(|s|, i requires 0 <= i < |s| => if 0 < s[i] as int < 128 then s[i] as int else 0x3f)
  }

  const QUOTE: byte := 0x22

  function ActionName(a: Action): Text {
    match a
    case Noop => Ascii("Noop")
    case Forward => Ascii("Forward")
    case Advertise => Ascii("Advertise")
    case AdvertiseResponse => Ascii("AdvertiseResponse")
    case RibGet => Ascii("RibGet")
    case RibReply => Ascii("RibReply")
    case Nack => Ascii("Nack")
    case Control => Ascii("Control")
  }

  /** Decimal, without leading zeros. */
  function PrintNat(n: nat): Text {
    if n < 10 then [0x30 + n] else PrintNat(n / 10) + [0x30 + n % 10]
  }

  function OpenAction(): Text { Ascii("{\"action\":\"") }
  function OpenDestination(): Text { Ascii("\",\"destination\":[") }
  function Comma(): Text { Ascii(",") }
  function OpenLength(): Text { Ascii("],\"length\":") }
  function Close(): Text { Ascii("}") }

  /** serde_json::to_vec of the header. */
  function PrintHeader(h: Header): Text {
    OpenAction() + (ActionName(h.action) + (OpenDestination() + (PrintNat(ByteOf(h.destination, 0)) + (Comma() +
    (PrintNat(ByteOf(h.destination, 1)) + (Comma() + (PrintNat(ByteOf(h.destination, 2)) + (Comma() +
    (PrintNat(ByteOf(h.destination, 3)) + (OpenLength() + (PrintNat(h.length) + Close())))))))))))
  }

  function Frame(h: Header, body: Text): Text {
    PrintHeader(h) + [0] + body
  }

  /** What is sent for p: a header with its action, the name it goes to and the number of bytes that follow the NUL,
      which are the payload and then the record. */
  ghost predicate Sends(p: Packet, h: Header, body: Text) {
    && h.action == p.action && h.destination == p.gdpname && h.length == |body|
    && body == (if p.payload.Some? then p.payload.value else []) + (if p.record.Some? then p.record.value else [])
  }

  /** The frame-writing arm of webrtc_reader_and_writer. */
  method WriteFrame(p: Packet) returns (data: Text)
    requires |Body(p)| < 0x1_0000_0000_0000_0000
    ensures data == Frame(GetHeader(p), Body(p)) && Sends(p, GetHeader(p), Body(p))
    ensures var body :=
        (if p.payload.Some? then p.payload.value else []) + (if p.record.Some? then p.record.value else []);
      |body| < 0x1_0000_0000_0000_0000 && data == PrintHeader(Header(p.action, p.gdpname, |body|)) + [0] + body
  {
    var header := GetHeader(p);
    data := PrintHeader(header);
    data := data + [0];
    if p.payload.Some? {
      data := data + p.payload.value;
    }
    if p.record.Some? {
      data := data + p.record.value;
    }
  }

  // ----- what a header looks like -----

  lemma AsciiIs(s: string)
    requires forall i :: 0 <= i < |s| ==> 0 < s[i] as int < 128
    ensures |Ascii(s)| == |s| && forall i :: 0 <= i < |s| ==> Ascii(s)[i] as char == s[i]
  {
  }

  function Decimal(n: nat): string {
    if n < 10 then ["0123456789"[n]] else Decimal(n / 10) + ["0123456789"[n % 10]]
  }

  function ActionString(a: Action): string {
    match a
    case Noop => "Noop"
    case Forward => "Forward"
    case Advertise => "Advertise"
    case AdvertiseResponse => "AdvertiseResponse"
    case RibGet => "RibGet"
    case RibReply => "RibReply"
    case Nack => "Nack"
    case Control => "Control"
  }

  /** The header as a string. */
  function HeaderString(h: Header): string {
    "{\"action\":\"" + (ActionString(h.action) + ("\",\"destination\":[" + (Decimal(h.destination / 0x100_0000) + ("," +
    (Decimal(h.destination / 0x1_0000 % 0x100) + ("," + (Decimal(h.destination / 0x100 % 0x100) + ("," +
    (Decimal(h.destination % 0x100) + ("],\"length\":" + (Decimal(h.length) + "}")))))))))))
  }

  lemma AsciiJoin(s: string, t: string)
    ensures Ascii(s + t) == Ascii(s) + Ascii(t)
  {
  }

  lemma {:induction false} DecimalPrinted(n: nat)
    ensures PrintNat(n) == Ascii(Decimal(n))
    ensures forall i :: 0 <= i < |Decimal(n)| ==> '0' <= Decimal(n)[i] <= '9'
  {
    if n >= 10 {
      DecimalPrinted(n / 10);
      DigitPrinted(n % 10);
      AsciiJoin(Decimal(n / 10), ["0123456789"[n % 10]]);
    } else {
      DigitPrinted(n);
    }
  }

  lemma DigitPrinted(d: nat)
    requires d < 10
    ensures Ascii(["0123456789"[d]]) == [0x30 + d] && '0' <= "0123456789"[d] <= '9'
  {
    assert "0123456789"[d] as int == 0x30 + d;
  }

  lemma ByteIs(n: Name)
    ensures ByteOf(n, 0) == n / 0x100_0000 && ByteOf(n, 1) == n / 0x1_0000 % 0x100
    ensures ByteOf(n, 2) == n / 0x100 % 0x100 && ByteOf(n, 3) == n % 0x100
  {
    assert n / 0x100 / 0x100 / 0x100 == n / 0x100_0000 && n / 0x100 / 0x100 == n / 0x1_0000;
  }

  lemma {:induction false} NumberJoin(n: nat, rest: string, t: Text)
    requires t == Ascii(rest)
    ensures PrintNat(n) + t == Ascii(Decimal(n) + rest)
  {
    DecimalPrinted(n);
    AsciiJoin(Decimal(n), rest);
  }

  lemma CommaJoin(rest: string, t: Text)
    requires t == Ascii(rest)
    ensures Comma() + t == Ascii("," + rest)
  {
    AsciiJoin(",", rest);
  }

  /** The bytes printed are that string. */
  lemma HeaderText(h: Header)
    ensures PrintHeader(h) == Ascii(HeaderString(h))
  {
    ByteIs(h.destination);
    var s4 := Decimal(h.length) + "}";
    var s3 := Decimal(h.destination % 0x100) + ("],\"length\":" + s4);
    var s2 := Decimal(h.destination / 0x100 % 0x100) + ("," + s3);
    var s1 := Decimal(h.destination / 0x1_0000 % 0x100) + ("," + s2);
    var s0 := Decimal(h.destination / 0x100_0000) + ("," + s1);
    NumberJoin(h.length, "}", Close());
    AsciiJoin("],\"length\":", s4);
    NumberJoin(h.destination % 0x100, "],\"length\":" + s4, OpenLength() + Ascii(s4));
    CommaJoin(s3, Ascii(s3));
    NumberJoin(h.destination / 0x100 % 0x100, "," + s3, Comma() + Ascii(s3));
    CommaJoin(s2, Ascii(s2));
    NumberJoin(h.destination / 0x1_0000 % 0x100, "," + s2, Comma() + Ascii(s2));
    CommaJoin(s1, Ascii(s1));
    NumberJoin(h.destination / 0x100_0000, "," + s1, Comma() + Ascii(s1));
    FrontText(h, s0);
  }

  lemma FrontText(h: Header, rest: string)
    ensures OpenAction() + (ActionName(h.action) + (OpenDestination() + Ascii(rest))) ==
            Ascii("{\"action\":\"" + (ActionString(h.action) + ("\",\"destination\":[" + rest)))
  {
    AsciiJoin("\",\"destination\":[", rest);
    AsciiJoin(ActionString(h.action), "\",\"destination\":[" + rest);
    AsciiJoin("{\"action\":\"", ActionString(h.action) + ("\",\"destination\":[" + rest));
  }

  // ----- no NUL byte in a header -----

  lemma AsciiNoNul(s: string)
    ensures 0 !in Ascii(s)
  {
  }

  lemma {:induction false} PrintNatNoNul(n: nat)
    ensures 0 !in PrintNat(n)
  {
    if n >= 10 {
      PrintNatNoNul(n / 10);
    }
  }

  lemma ActionNameNoNul(a: Action)
    ensures 0 !in ActionName(a)
  {
    AsciiNoNul("Noop");
    AsciiNoNul("Forward");
    AsciiNoNul("Advertise");
    AsciiNoNul("AdvertiseResponse");
    AsciiNoNul("RibGet");
    AsciiNoNul("RibReply");
    AsciiNoNul("Nack");
    AsciiNoNul("Control");
  }

  /** The delimiter cannot occur inside a printed header. */
  lemma HeaderNoNul(h: Header)
    ensures 0 !in PrintHeader(h)
  {
    AsciiNoNul("{\"action\":\"");
    AsciiNoNul("\",\"destination\":[");
    AsciiNoNul(",");
    AsciiNoNul("],\"length\":");
    AsciiNoNul("}");
    ActionNameNoNul(h.action);
    PrintNatNoNul(ByteOf(h.destination, 0));
    PrintNatNoNul(ByteOf(h.destination, 1));
    PrintNatNoNul(ByteOf(h.destination, 2));
    PrintNatNoNul(ByteOf(h.destination, 3));
    PrintNatNoNul(h.length);
  }

  // ----- a decoder for printed headers -----

  function Strip(prefix: Text, t: Text): Option<Text> {
    if prefix <= t then Some(t[|prefix|..]) else None
  }

  lemma StripPrefix(prefix: Text, rest: Text)
    ensures Strip(prefix, prefix + rest) == Some(rest)
  {
  }

  predicate IsDigit(b: byte) {
    0x30 <= b <= 0x39
  }

  /** Digits read from the front of t onto acc, and what follows them. */
  function ReadNat(t: Text, acc: nat): (nat, Text) {
    if t != [] && IsDigit(t[0]) then ReadNat(t[1..], 10 * acc + (t[0] - 0x30)) else (acc, t)
  }

  lemma {:induction false} ReadPrinted(n: nat, rest: Text)
    ensures ReadNat(PrintNat(n) + rest, 0) == ReadNat(rest, n)
  {
    if n < 10 {
      assert (PrintNat(n) + rest)[1..] == rest;
    } else {
      var last := [0x30 + n % 10];
      assert PrintNat(n) + rest == PrintNat(n / 10) + (last + rest);
      ReadPrinted(n / 10, last + rest);
      assert (last + rest)[1..] == rest;
    }
  }

  /** What precedes the first quote, and what is left from the quote on. */
  function UpToQuote(t: Text): (Text, Text) {
    if t == [] || t[0] == QUOTE then ([], t)
    else
      var (a, b) := UpToQuote(t[1..]);
      ([t[0]] + a, b)
  }

  lemma {:induction false} UpToQuoteIs(a: Text, rest: Text)
    requires QUOTE !in a && rest != [] && rest[0] == QUOTE
    ensures UpToQuote(a + rest) == (a, rest)
  {
    if a == [] {
      assert a + rest == rest;
    } else {
      UpToQuoteIs(a[1..], rest);
      assert (a + rest)[1..] == a[1..] + rest;
      assert a == [a[0]] + a[1..];
    }
  }

  function ActionNamed(t: Text): Option<Action> {
    if t == ActionName(Noop) then Some(Noop)
    else if t == ActionName(Forward) then Some(Forward)
    else if t == ActionName(Advertise) then Some(Advertise)
    else if t == ActionName(AdvertiseResponse) then Some(AdvertiseResponse)
    else if t == ActionName(RibGet) then Some(RibGet)
    else if t == ActionName(RibReply) then Some(RibReply)
    else if t == ActionName(Nack) then Some(Nack)
    else if t == ActionName(Control) then Some(Control)
    else None
  }

  lemma ActionNameShape(a: Action)
    ensures |ActionName(a)| == match a
      case Noop => 4 case Forward => 7 case Advertise => 9 case AdvertiseResponse => 17
      case RibGet => 6 case RibReply => 8 case Nack => 4 case Control => 7
    ensures ActionName(a)[1] == match a
      case Noop => 0x6f case Forward => 0x6f case Advertise => 0x64 case AdvertiseResponse => 0x64
      case RibGet => 0x69 case RibReply => 0x69 case Nack => 0x61 case Control => 0x6f
    ensures ActionName(a)[0] == match a
      case Noop => 0x4e case Forward => 0x46 case Advertise => 0x41 case AdvertiseResponse => 0x41
      case RibGet => 0x52 case RibReply => 0x52 case Nack => 0x4e case Control => 0x43
  {
  }

  lemma ActionRoundTrip(a: Action)
    ensures ActionNamed(ActionName(a)) == Some(a)
  {
    ActionNameShape(Noop);
    ActionNameShape(Forward);
    ActionNameShape(Advertise);
    ActionNameShape(AdvertiseResponse);
    ActionNameShape(RibGet);
    ActionNameShape(RibReply);
    ActionNameShape(Nack);
    ActionNameShape(Control);
  }

  lemma ActionNoQuote(a: Action)
    ensures QUOTE !in ActionName(a)
  {
    match a
    case Noop => assert forall i :: 0 <= i < 4 ==> "Noop"[i] != '\"';
    case Forward => assert forall i :: 0 <= i < 7 ==> "Forward"[i] != '\"';
    case Advertise => assert forall i :: 0 <= i < 9 ==> "Advertise"[i] != '\"';
    case AdvertiseResponse => assert forall i :: 0 <= i < 17 ==> "AdvertiseResponse"[i] != '\"';
    case RibGet => assert forall i :: 0 <= i < 6 ==> "RibGet"[i] != '\"';
    case RibReply => assert forall i :: 0 <= i < 8 ==> "RibReply"[i] != '\"';
    case Nack => assert forall i :: 0 <= i < 4 ==> "Nack"[i] != '\"';
    case Control => assert forall i :: 0 <= i < 7 ==> "Control"[i] != '\"';
  }

  /** Reads one number below limit, with at least one digit and no leading zeros, and the text that must follow it. */
  function NumberThen(t: Text, limit: nat, after: Text): Option<(nat, Text)> {
    var (n, rest) := ReadNat(t, 0);
    match Strip(after, rest)
    case Some(r) => if n < limit && t == PrintNat(n) + rest then Some((n, r)) else None
    case None => None
  }

  lemma {:induction false} NumberThenPrinted(n: nat, limit: nat, after: Text, rest: Text)
    requires n < limit && after != [] && !IsDigit(after[0])
    ensures NumberThen(PrintNat(n) + (after + rest), limit, after) == Some((n, rest))
  {
    ReadPrinted(n, after + rest);
    assert (after + rest)[0] == after[0];
    StripPrefix(after, rest);
  }

  /** Accepts exactly the texts that PrintHeader writes. */
  function DecodePrinted(t: Text): Option<Header> {
    match Strip(OpenAction(), t)
    case None => None
    case Some(t1) =>
      var (name, t2) := UpToQuote(t1);
      match (ActionNamed(name), Strip(OpenDestination(), t2))
      case (Some(a), Some(t3)) => DecodeRest(a, t3)
      case _ => None
  }

  function DecodeRest(a: Action, t: Text): Option<Header> {
    match NumberThen(t, 256, Comma())
    case None => None
    case Some((b0, t1)) =>
      match NumberThen(t1, 256, Comma())
      case None => None
      case Some((b1, t2)) =>
        match NumberThen(t2, 256, Comma())
        case None => None
        case Some((b2, t3)) =>
          match NumberThen(t3, 256, OpenLength())
          case None => None
          case Some((b3, t4)) =>
            match NumberThen(t4, 0x1_0000_0000_0000_0000, Close())
            case None => None
            case Some((len, end)) => if end == [] then Some(Header(a, FromBytes(b0, b1, b2, b3), len)) else None
  }

  lemma Delimiters()
    ensures Comma() != [] && !IsDigit(Comma()[0])
    ensures OpenLength() != [] && !IsDigit(OpenLength()[0])
    ensures Close() != [] && !IsDigit(Close()[0])
    ensures OpenDestination() != [] && OpenDestination()[0] == QUOTE
  {
  }

  lemma RestRoundTrip(h: Header)
    ensures DecodeRest(h.action, PrintNat(ByteOf(h.destination, 0)) + (Comma() +
      (PrintNat(ByteOf(h.destination, 1)) + (Comma() + (PrintNat(ByteOf(h.destination, 2)) + (Comma() +
      (PrintNat(ByteOf(h.destination, 3)) + (OpenLength() + (PrintNat(h.length) + Close()))))))))) == Some(h)
  {
    Delimiters();
    BytesRoundTrip(h.destination);
    var t4 := PrintNat(h.length) + Close();
    var t3 := PrintNat(ByteOf(h.destination, 3)) + (OpenLength() + t4);
    var t2 := PrintNat(ByteOf(h.destination, 2)) + (Comma() + t3);
    var t1 := PrintNat(ByteOf(h.destination, 1)) + (Comma() + t2);
    NumberThenPrinted(ByteOf(h.destination, 0), 256, Comma(), t1);
    NumberThenPrinted(ByteOf(h.destination, 1), 256, Comma(), t2);
    NumberThenPrinted(ByteOf(h.destination, 2), 256, Comma(), t3);
    NumberThenPrinted(ByteOf(h.destination, 3), 256, OpenLength(), t4);
    assert Close() + [] == Close();
    NumberThenPrinted(h.length, 0x1_0000_0000_0000_0000, Close(), []);
  }

  /** How the two ends write and read a header. */
  datatype Codec = Codec(printed: Header -> Text, decode: Text -> Option<Header>)

  /** The reader inverts the writer, and no printed header contains the delimiter. */
  ghost predicate CodecOk(c: Codec) {
    forall h :: 0 !in c.printed(h) && c.decode(c.printed(h)) == Some(h)
  }

  lemma HeaderRoundTrip(h: Header)
    ensures DecodePrinted(PrintHeader(h)) == Some(h)
  {
    Delimiters();
    RestRoundTrip(h);
    ActionRoundTrip(h.action);
    ActionNoQuote(h.action);
    var t3 := PrintNat(ByteOf(h.destination, 0)) + (Comma() +
      (PrintNat(ByteOf(h.destination, 1)) + (Comma() + (PrintNat(ByteOf(h.destination, 2)) + (Comma() +
      (PrintNat(ByteOf(h.destination, 3)) + (OpenLength() + (PrintNat(h.length) + Close()))))))));
    var t2 := OpenDestination() + t3;
    StripPrefix(OpenAction(), ActionName(h.action) + t2);
    assert t2[0] == QUOTE;
    UpToQuoteIs(ActionName(h.action), t2);
    StripPrefix(OpenDestination(), t3);
  }

  lemma NumberIs(t: Text, limit: nat, after: Text)
    ensures match NumberThen(t, limit, after)
      case Some((n, r)) => n < limit && t == PrintNat(n) + (after + r)
      case None => true
  {
  }

  lemma {:induction false} UpToQuoteJoins(t: Text)
    ensures UpToQuote(t).0 + UpToQuote(t).1 == t
  {
    if t != [] && t[0] != QUOTE {
      UpToQuoteJoins(t[1..]);
      assert t == [t[0]] + t[1..];
    }
  }

  lemma RestExact(a: Action, t: Text)
    requires DecodeRest(a, t).Some?
    ensures var h := DecodeRest(a, t).value;
      h.action == a && t == PrintNat(ByteOf(h.destination, 0)) + (Comma() +
      (PrintNat(ByteOf(h.destination, 1)) + (Comma() + (PrintNat(ByteOf(h.destination, 2)) + (Comma() +
      (PrintNat(ByteOf(h.destination, 3)) + (OpenLength() + (PrintNat(h.length) + Close()))))))))
  {
    NumberIs(t, 256, Comma());
    var (b0, t1) := NumberThen(t, 256, Comma()).value;
    NumberIs(t1, 256, Comma());
    var (b1, t2) := NumberThen(t1, 256, Comma()).value;
    NumberIs(t2, 256, Comma());
    var (b2, t3) := NumberThen(t2, 256, Comma()).value;
    NumberIs(t3, 256, OpenLength());
    var (b3, t4) := NumberThen(t3, 256, OpenLength()).value;
    NumberIs(t4, 0x1_0000_0000_0000_0000, Close());
    assert Close() + [] == Close();
    FromBytesRoundTrip(b0, b1, b2, b3);
  }

  lemma StripIs(prefix: Text, t: Text)
    ensures Strip(prefix, t).Some? ==> t == prefix + Strip(prefix, t).value
  {
  }

  lemma ActionNamedIs(t: Text)
    ensures ActionNamed(t).Some? ==> t == ActionName(ActionNamed(t).value)
  {
  }

  lemma FrontExact(t: Text, h: Header) returns (rest: Text)
    requires DecodePrinted(t) == Some(h)
    ensures t == OpenAction() + (ActionName(h.action) + (OpenDestination() + rest))
    ensures DecodeRest(h.action, rest) == Some(h)
  {
    var t1 := Strip(OpenAction(), t).value;
    var (name, t2) := UpToQuote(t1);
    rest := Strip(OpenDestination(), t2).value;
    StripIs(OpenAction(), t);
    UpToQuoteJoins(t1);
    StripIs(OpenDestination(), t2);
    ActionNamedIs(name);
    RestExact(ActionNamed(name).value, rest);
  }

  /** The decoder reads a header from a text exactly when the text is that header printed. */
  lemma DecodesExactly(t: Text, h: Header)
    ensures DecodePrinted(t) == Some(h) <==> t == PrintHeader(h)
  {
    HeaderRoundTrip(h);
    if DecodePrinted(t) == Some(h) {
      var rest := FrontExact(t, h);
      RestExact(h.action, rest);
    }
  }

  /** The sender's JSON header works with every decoder that reads it back, whatever else that decoder accepts. */
  lemma JsonCodecOk(decode: Text -> Option<Header>)
    requires forall h :: decode(PrintHeader(h)) == Some(h)
    ensures CodecOk(Codec(PrintHeader, decode))
  {
    forall h
      ensures 0 !in PrintHeader(h)
    {
      HeaderNoNul(h);
    }
  }

  /** There is such a decoder. */
  lemma PrintedCodecOk()
    ensures CodecOk(Codec(PrintHeader, DecodePrinted))
  {
    forall h
      ensures DecodePrinted(PrintHeader(h)) == Some(h)
    {
      HeaderRoundTrip(h);
    }
    JsonCodecOk(DecodePrinted);
  }
}
