/** core/src/structs.rs and core/src/connection_store.rs: GDP names, connections, and their printed forms. Text is
    UTF-8, byte by byte. */
module Names {
  import opened Basics

  const DASH: byte := 0x2d
  const PLUS: byte := 0x2b

  /** The i-th byte of a name, most significant first. */
  function ByteOf(n: Name, i: nat): byte
    requires i < 4
  {
    if i == 0 then n / 0x100 / 0x100 / 0x100
    else if i == 1 then n / 0x100 / 0x100 % 0x100
    else if i == 2 then n / 0x100 % 0x100
    else n % 0x100
  }

  function FromBytes(a: byte, b: byte, c: byte, d: byte): Name {
    a * 0x100_0000 + b * 0x1_0000 + c * 0x100 + d
  }

  lemma BytesRoundTrip(n: Name)
    ensures FromBytes(ByteOf(n, 0), ByteOf(n, 1), ByteOf(n, 2), ByteOf(n, 3)) == n
  {
  }

  lemma FromBytesRoundTrip(a: byte, b: byte, c: byte, d: byte)
    ensures var n := FromBytes(a, b, c, d);
      ByteOf(n, 0) == a && ByteOf(n, 1) == b && ByteOf(n, 2) == c && ByteOf(n, 3) == d
  {
    var n := FromBytes(a, b, c, d);
    assert n / 0x100 == a * 0x1_0000 + b * 0x100 + c;
    assert n / 0x100 / 0x100 == a * 0x100 + b;
  }

  // ----- printing -----

  /** A hexadecimal digit in lower case. */
  function Digit(d: int): byte
    requires 0 <= d < 16
  {
    if d < 10 then 0x30 + d else 0x57 + d
  }

  function PrintByte(b: byte): Text {
    [Digit(b / 16), Digit(b % 16)]
  }

  function PrintFrom(n: Name, i: nat): Text
    requires i <= 4
    decreases 4 - i
  {
    if i == 4 then [] else PrintByte(ByteOf(n, i)) + PrintFrom(n, i + 1)
  }

  /** Display for GDPName */
  function Print(n: Name): Text {
    PrintFrom(n, 0)
  }

  lemma PrintIs(n: Name)
    ensures Print(n) == PrintByte(ByteOf(n, 0)) +
                        (PrintByte(ByteOf(n, 1)) + (PrintByte(ByteOf(n, 2)) + PrintByte(ByteOf(n, 3))))
  {
    var t3 := PrintByte(ByteOf(n, 3));
    assert PrintFrom(n, 4) == [];
    assert PrintFrom(n, 3) == t3 + [] == t3;
    assert PrintFrom(n, 2) == PrintByte(ByteOf(n, 2)) + t3;
    assert PrintFrom(n, 1) == PrintByte(ByteOf(n, 1)) + (PrintByte(ByteOf(n, 2)) + t3);
  }

  // ----- parsing -----

  function DigitValue(c: byte): (r: Option<byte>)
    ensures r.Some? ==> r.value < 16
  {
    if 0x30 <= c <= 0x39 then Some(c - 0x30)
    else if 0x61 <= c <= 0x66 then Some(c - 0x57)
    else if 0x41 <= c <= 0x46 then Some(c - 0x37)
    else None
  }

  /** u8::from_str_radix(chunk, 16) on a chunk of one byte; a byte that is not UTF-8 on its own leaves zero. */
  function ParseSingle(c: byte): Option<byte> {
    if c >= 0x80 then Some(0) else DigitValue(c)
  }

  /** The same for two bytes: upper and lower case, and a leading plus before a digit. */
  function ParsePair(h: byte, l: byte): Option<byte> {
    if !IsUtf8(h, l) then Some(0)
    else if h == PLUS then DigitValue(l)
    else
      match (DigitValue(h), DigitValue(l))
      case (Some(a), Some(b)) => Some(16 * a + b)
      case _ => None
  }

  /** Whether two bytes are valid UTF-8: two characters of one byte, or one of two. */
  predicate IsUtf8(h: byte, l: byte) {
    (h < 0x80 && l < 0x80) || (0xC2 <= h <= 0xDF && 0x80 <= l <= 0xBF)
  }

  /** The i-th chunk of two bytes parsed, the last of which may be shorter; zero when there is no such chunk. */
  function ParsedByte(s: Text, i: nat): Option<byte> {
    if 2 * i >= |s| then Some(0)
    else if 2 * i + 1 == |s| then ParseSingle(s[2 * i])
    else ParsePair(s[2 * i], s[2 * i + 1])
  }

  /** FromStr for GDPName: short input leaves zero bytes, input beyond eight bytes is ignored. */
  function ParseName(s: Text): Option<Name> {
    match (ParsedByte(s, 0), ParsedByte(s, 1), ParsedByte(s, 2), ParsedByte(s, 3))
    case (Some(a), Some(b), Some(c), Some(d)) => Some(FromBytes(a, b, c, d))
    case _ => None
  }

  /** The byte array filled chunk by chunk. */
  method FromStr(s: Text) returns (r: Option<Name>)
    ensures r == ParseName(s)
  {
    var bytes := new byte[4](_ => 0);
    var i := 0;
    while i < 4 && 2 * i < |s|
      invariant 0 <= i <= 4 && bytes.Length == 4
      invariant forall k :: 0 <= k < i ==> ParsedByte(s, k) == Some(bytes[k])
      invariant forall k :: i <= k < 4 ==> bytes[k] == 0
    {
      var parsed := ParsedByte(s, i);
      if parsed == None {
        MalformedByte(s, i);
        return None;
      }
      bytes[i] := parsed.value;
      i := i + 1;
    }
    NoChunksLeft(s, i);
    assert ParsedByte(s, 0) == Some(bytes[0]) && ParsedByte(s, 1) == Some(bytes[1]);
    assert ParsedByte(s, 2) == Some(bytes[2]) && ParsedByte(s, 3) == Some(bytes[3]);
    return Some(FromBytes(bytes[0], bytes[1], bytes[2], bytes[3]));
  }

  lemma NoChunksLeft(s: Text, i: nat)
    requires i >= 4 || 2 * i >= |s|
    ensures forall k :: i <= k < 4 ==> ParsedByte(s, k) == Some(0)
  {
  }

  lemma MalformedByte(s: Text, i: nat)
    requires i < 4 && ParsedByte(s, i) == None
    ensures ParseName(s) == None
  {
    assert i == 0 || i == 1 || i == 2 || i == 3;
  }

  lemma DigitRoundTrip(d: int)
    requires 0 <= d < 16
    ensures DigitValue(Digit(d)) == Some(d)
    ensures Digit(d) != DASH && Digit(d) != PLUS && 0 < Digit(d) < 0x80
  {
  }

  lemma ByteRoundTrip(b: byte)
    ensures ParsePair(Digit(b / 16), Digit(b % 16)) == Some(b)
    ensures DASH !in PrintByte(b)
  {
    DigitRoundTrip(b / 16);
    DigitRoundTrip(b % 16);
  }

  lemma PrintedAt(n: Name, i: nat)
    requires i < 4
    ensures |Print(n)| == 8
    ensures Print(n)[2 * i] == Digit(ByteOf(n, i) / 16) && Print(n)[2 * i + 1] == Digit(ByteOf(n, i) % 16)
  {
    PrintIs(n);
  }

  lemma PrintedByte(n: Name, rest: Text, i: nat)
    requires i < 4
    ensures ParsedByte(Print(n) + rest, i) == Some(ByteOf(n, i))
  {
    PrintedAt(n, i);
    ByteRoundTrip(ByteOf(n, i));
  }

  lemma NoDash(n: Name)
    ensures |Print(n)| == 8 && DASH !in Print(n)
  {
    PrintIs(n);
    ByteRoundTrip(ByteOf(n, 0));
    ByteRoundTrip(ByteOf(n, 1));
    ByteRoundTrip(ByteOf(n, 2));
    ByteRoundTrip(ByteOf(n, 3));
  }

  /** Parsing reads back a printed name, whatever follows it. */
  lemma NameRoundTrip(n: Name, rest: Text)
    ensures ParseName(Print(n) + rest) == Some(n)
    ensures ParseName(Print(n)) == Some(n)
  {
    PrintedBytes(n, rest);
    PrintedBytes(n, []);
    assert Print(n) + [] == Print(n);
  }

  lemma PrintedBytes(n: Name, rest: Text)
    ensures ParseName(Print(n) + rest) == Some(n)
  {
    PrintedByte(n, rest, 0);
    PrintedByte(n, rest, 1);
    PrintedByte(n, rest, 2);
    PrintedByte(n, rest, 3);
    BytesRoundTrip(n);
  }

  lemma PrintInjective(m: Name, n: Name)
    ensures Print(m) == Print(n) <==> m == n
  {
    NameRoundTrip(m, []);
    NameRoundTrip(n, []);
  }

  // ----- what is printed and what is read -----

  /** The value of a hexadecimal digit of either case. */
  function HexValue(b: byte): Option<int> {
    var c := b as char;
    if '0' <= c <= '9' then Some((c - '0') as int)
    else if 'a' <= c <= 'f' then Some((c - 'a') as int + 10)
    else if 'A' <= c <= 'F' then Some((c - 'A') as int + 10)
    else None
  }

  predicate AllHex(s: Text) {
    forall i :: 0 <= i < |s| ==> HexValue(s[i]).Some?
  }

  /** The number written in base sixteen. */
  function HexNumber(s: Text): int
    requires AllHex(s)
  {
    if s == [] then 0 else 16 * HexNumber(s[..|s| - 1]) + HexValue(s[|s| - 1]).value
  }

  lemma DigitsAreHex(c: byte)
    ensures match DigitValue(c)
      case Some(v) => HexValue(c) == Some(v)
      case None => HexValue(c) == None
  {
  }

  lemma {:induction false} HexOfEight(s: Text)
    requires |s| == 8 && AllHex(s)
    ensures HexNumber(s) == 0x100_0000 * (16 * HexValue(s[0]).value + HexValue(s[1]).value)
                          + 0x1_0000 * (16 * HexValue(s[2]).value + HexValue(s[3]).value)
                          + 0x100 * (16 * HexValue(s[4]).value + HexValue(s[5]).value)
                          + (16 * HexValue(s[6]).value + HexValue(s[7]).value)
  {
    assert s[..8] == s;
    forall k | 0 <= k < 8
      ensures HexNumber(s[..k + 1]) == 16 * HexNumber(s[..k]) + HexValue(s[k]).value
    {
      assert s[..k + 1][..k] == s[..k];
    }
  }

  /** A text that begins with eight hexadecimal digits, of either case, is read as the number they write. */
  lemma {:induction false} ParsesHex(s: Text, rest: Text)
    requires |s| == 8 && AllHex(s)
    ensures ParseName(s + rest) == Some(HexNumber(s))
  {
    HexOfEight(s);
    forall i | 0 <= i < 8
      ensures DigitValue(s[i]) == HexValue(s[i])
    {
      DigitsAreHex(s[i]);
    }
    forall i | 0 <= i < 4
      ensures ParsedByte(s + rest, i) == Some(16 * HexValue(s[2 * i]).value + HexValue(s[2 * i + 1]).value)
    {
      assert (s + rest)[2 * i] == s[2 * i] && (s + rest)[2 * i + 1] == s[2 * i + 1];
    }
  }

  predicate LowerHex(c: byte) {
    '0' <= c as char <= '9' || 'a' <= c as char <= 'f'
  }

  lemma DigitIsLower(d: int)
    requires 0 <= d < 16
    ensures LowerHex(Digit(d)) && HexValue(Digit(d)) == Some(d)
  {
  }

  lemma PrintedHex(n: Name, i: nat)
    requires i < 4
    ensures |Print(n)| == 8 && LowerHex(Print(n)[2 * i]) && LowerHex(Print(n)[2 * i + 1])
    ensures HexValue(Print(n)[2 * i]) == Some(ByteOf(n, i) / 16)
    ensures HexValue(Print(n)[2 * i + 1]) == Some(ByteOf(n, i) % 16)
  {
    PrintedAt(n, i);
    DigitIsLower(ByteOf(n, i) / 16);
    DigitIsLower(ByteOf(n, i) % 16);
  }

  lemma PrintedLower(n: Name)
    ensures |Print(n)| == 8 && AllHex(Print(n)) && forall i :: 0 <= i < 8 ==> LowerHex(Print(n)[i])
  {
    forall i | 0 <= i < |Print(n)|
      ensures i < 8 && LowerHex(Print(n)[i])
    {
      NoDash(n);
      PrintedHex(n, i / 2);
      assert i == 2 * (i / 2) || i == 2 * (i / 2) + 1;
    }
    NoDash(n);
  }

  /** A name prints as the eight digits, in lower case, of its number. */
  lemma PrintsHex(n: Name)
    ensures |Print(n)| == 8 && AllHex(Print(n)) && HexNumber(Print(n)) == n
    ensures forall i :: 0 <= i < 8 ==> LowerHex(Print(n)[i])
  {
    PrintedLower(n);
    PrintedHex(n, 0);
    PrintedHex(n, 1);
    PrintedHex(n, 2);
    PrintedHex(n, 3);
    HexOfEight(Print(n));
    BytesRoundTrip(n);
  }

  /** How a chunk of any text is read: nothing as zero, one or two digits as their number, a plus before a digit as
      nothing, and bytes that are not UTF-8 as zero; every other chunk is an error. */
  lemma ChunkMeans(s: Text, i: nat)
    requires i < 4
    ensures 2 * i >= |s| ==> ParsedByte(s, i) == Some(0)
    ensures 2 * i + 1 == |s| ==>
      var h := s[2 * i];
      ParsedByte(s, i) == if h >= 0x80 then Some(0) else HexValue(h)
    ensures 2 * i + 1 < |s| ==>
      var h, l := s[2 * i], s[2 * i + 1];
      var twoByteCharacter := h / 0x20 == 6 && h >= 0xc2 && l / 0x40 == 2;
      && (HexValue(h).Some? && HexValue(l).Some? ==>
            ParsedByte(s, i) == Some(16 * HexValue(h).value + HexValue(l).value))
      && (h as char == '+' && HexValue(l).Some? ==> ParsedByte(s, i) == HexValue(l))
      && ((h >= 0x80 || l >= 0x80) && !twoByteCharacter ==> ParsedByte(s, i) == Some(0))
      && (twoByteCharacter || (h < 0x80 && l < 0x80 && (HexValue(l).None? || (HexValue(h).None? &&
          h as char != '+'))) ==>
            ParsedByte(s, i) == None)
  {
  }

  /** A text is a name exactly if each of its first four chunks is read as that byte of the name. */
  lemma ParsesExactly(s: Text, n: Name)
    ensures ParseName(s) == Some(n) <==>
      && ParsedByte(s, 0) == Some(n / 0x100_0000) && ParsedByte(s, 1) == Some(n / 0x1_0000 % 0x100)
      && ParsedByte(s, 2) == Some(n / 0x100 % 0x100) && ParsedByte(s, 3) == Some(n % 0x100)
  {
    BytesRoundTrip(n);
    assert n / 0x100 / 0x100 / 0x100 == n / 0x100_0000 && n / 0x100 / 0x100 == n / 0x1_0000;
    match (ParsedByte(s, 0), ParsedByte(s, 1), ParsedByte(s, 2), ParsedByte(s, 3))
    case (Some(a), Some(b), Some(c), Some(d)) => FromBytesRoundTrip(a, b, c, d);
    case _ =>
  }

  // ----- names order like their printed forms -----

  /** String comparison, byte by byte. */
  predicate Before(s: Text, t: Text) {
    t != [] && (s == [] || s[0] < t[0] || (s[0] == t[0] && Before(s[1..], t[1..])))
  }

  lemma {:induction false} BeforeByte(a: byte, b: byte, s: Text, t: Text)
    ensures Before(PrintByte(a) + s, PrintByte(b) + t) <==> a < b || (a == b && Before(s, t))
  {
    var p, q := PrintByte(a) + s, PrintByte(b) + t;
    assert p[1..] == [Digit(a % 16)] + s && q[1..] == [Digit(b % 16)] + t;
    assert p[1..][1..] == s && q[1..][1..] == t;
    assert Before(p[1..], q[1..]) <==> a % 16 < b % 16 || (a % 16 == b % 16 && Before(s, t));
  }

  /** Routing sorts printed names; comparing the numbers gives the same order. */
  lemma PrintOrder(m: Name, n: Name)
    ensures Before(Print(m), Print(n)) <==> m < n
  {
    BytesRoundTrip(m);
    BytesRoundTrip(n);
    var m3, n3 := PrintByte(ByteOf(m, 3)), PrintByte(ByteOf(n, 3));
    var m2, n2 := PrintByte(ByteOf(m, 2)) + m3, PrintByte(ByteOf(n, 2)) + n3;
    var m1, n1 := PrintByte(ByteOf(m, 1)) + m2, PrintByte(ByteOf(n, 1)) + n2;
    PrintIs(m);
    PrintIs(n);
    assert m3 + [] == m3 && n3 + [] == n3;
    BeforeByte(ByteOf(m, 3), ByteOf(n, 3), [], []);
    BeforeByte(ByteOf(m, 2), ByteOf(n, 2), m3, n3);
    BeforeByte(ByteOf(m, 1), ByteOf(n, 1), m2, n2);
    BeforeByte(ByteOf(m, 0), ByteOf(n, 0), m1, n1);
  }

  // ----- splitting on '-' -----

  /** str::split('-') */
  function Split(s: Text): (r: seq<Text>)
    ensures r != []
  {
    if s == [] then [[]]
    else if s[0] == DASH then [[]] + Split(s[1..])
    else
      var r := Split(s[1..]);
      [[s[0]] + r[0]] + r[1..]
  }

  lemma {:induction false} SplitPiece(a: Text, rest: Text)
    requires DASH !in a
    ensures Split(a) == [a]
    ensures Split(a + [DASH] + rest) == [a] + Split(rest)
  {
    if a == [] {
      assert (a + [DASH] + rest)[1..] == rest;
    } else {
      SplitPiece(a[1..], rest);
      assert a == [a[0]] + a[1..];
      assert (a + [DASH] + rest)[1..] == a[1..] + [DASH] + rest;
      var r := Split(a[1..] + [DASH] + rest);
      assert r[0] == a[1..] && r[1..] == Split(rest);
      assert Split(a[1..])[1..] == [];
    }
  }

  lemma {:induction false} SplitTwo(a: Text, b: Text)
    requires DASH !in a && DASH !in b
    ensures Split(a + [DASH] + b) == [a, b]
  {
    SplitPiece(a, b);
    SplitPiece(b, []);
  }

  lemma {:induction false} SplitThree(a: Text, b: Text, c: Text)
    requires DASH !in a && DASH !in b && DASH !in c
    ensures Split(a + [DASH] + b + [DASH] + c) == [a, b, c]
  {
    assert a + [DASH] + b + [DASH] + c == a + [DASH] + (b + [DASH] + c);
    SplitPiece(a, b + [DASH] + c);
    SplitTwo(b, c);
  }

  /** The first piece is what stands before the first dash; the others come from the text behind it. */
  lemma {:induction false} SplitFront(s: Text) returns (rest: Text)
    ensures DASH !in Split(s)[0]
    ensures |Split(s)| == 1 ==> s == Split(s)[0]
    ensures |Split(s)| > 1 ==> s == Split(s)[0] + [DASH] + rest && Split(rest) == Split(s)[1..]
  {
    if s == [] {
      rest := [];
    } else if s[0] == DASH {
      rest := s[1..];
      assert s == [DASH] + rest;
    } else {
      rest := SplitFront(s[1..]);
      var r := Split(s[1..]);
      assert Split(s)[0] == [s[0]] + r[0] && Split(s)[1..] == r[1..];
      assert s == [s[0]] + s[1..];
    }
  }

  /** Exactly the texts with two dashes fall into three pieces. */
  lemma {:induction false} SplitsInThree(s: Text, a: Text, b: Text, c: Text)
    ensures Split(s) == [a, b, c] <==> s == a + [DASH] + b + [DASH] + c && DASH !in a && DASH !in b && DASH !in c
  {
    if s == a + [DASH] + b + [DASH] + c && DASH !in a && DASH !in b && DASH !in c {
      SplitThree(a, b, c);
    }
    if Split(s) == [a, b, c] {
      var rest := SplitFront(s);
      assert Split(rest) == [b, c];
      var last := SplitFront(rest);
      assert Split(last) == [c];
      var _ := SplitFront(last);
      assert s == a + [DASH] + (b + [DASH] + c);
    }
  }

  // ----- connections -----

  datatype Connection = Connection(publisher: Name, subscriber: Name)

  /** ToString for Connection */
  function PrintConnection(c: Connection): Text {
    Print(c.publisher) + [DASH] + Print(c.subscriber)
  }

  /** FromStr for Connection, and parse_connection */
  function ParseConnection(s: Text): Option<Connection> {
    var parts := Split(s);
    if |parts| != 2 then None else
      match (ParseName(parts[0]), ParseName(parts[1]))
      case (Some(p), Some(q)) => Some(Connection(p, q))
      case _ => None
  }

  lemma {:induction false} PartsParsed(s: Text, a: Text, b: Text, p: Name, q: Name)
    requires Split(s) == [a, b] && ParseName(a) == Some(p) && ParseName(b) == Some(q)
    ensures ParseConnection(s) == Some(Connection(p, q))
  {
  }

  /** Exactly the texts with one dash between two parts that parse as names are connections: publisher, subscriber. */
  lemma {:induction false} ConnectionsParse(s: Text, c: Connection)
    ensures ParseConnection(s) == Some(c) <==>
      exists a, b :: DASH !in a && DASH !in b && s == a + [DASH] + b &&
                     ParseName(a) == Some(c.publisher) && ParseName(b) == Some(c.subscriber)
  {
    if ParseConnection(s) == Some(c) {
      var parts := Split(s);
      assert parts == [parts[0], parts[1]];
      SplitsInTwo(s, parts[0], parts[1]);
      assert ParseName(parts[0]) == Some(c.publisher) && ParseName(parts[1]) == Some(c.subscriber);
    }
    if a, b :| DASH !in a && DASH !in b && s == a + [DASH] + b &&
               ParseName(a) == Some(c.publisher) && ParseName(b) == Some(c.subscriber) {
      SplitTwo(a, b);
      PartsParsed(s, a, b, c.publisher, c.subscriber);
    }
  }

  lemma {:induction false} SplitsInTwo(s: Text, a: Text, b: Text)
    requires Split(s) == [a, b]
    ensures s == a + [DASH] + b && DASH !in a && DASH !in b
  {
    var rest := SplitFront(s);
    assert Split(rest) == [b];
    var _ := SplitFront(rest);
  }

  lemma ConnectionRoundTrip(c: Connection)
    ensures ParseConnection(PrintConnection(c)) == Some(c)
    ensures Split(PrintConnection(c)) == [Print(c.publisher), Print(c.subscriber)]
  {
    var a, b := Print(c.publisher), Print(c.subscriber);
    NameRoundTrip(c.publisher, []);
    NameRoundTrip(c.subscriber, []);
    NoDash(c.publisher);
    NoDash(c.subscriber);
    SplitTwo(a, b);
    PartsParsed(a + [DASH] + b, a, b, c.publisher, c.subscriber);
  }

  /** connection_id */
  function ConnectionId(topic: Name, c: Connection): Text {
    Print(topic) + [DASH] + PrintConnection(c)
  }

  lemma ConnectionIdInjective(topic: Name, c: Connection, d: Connection)
    ensures ConnectionId(topic, c) == ConnectionId(topic, d) <==> c == d
  {
    if ConnectionId(topic, c) == ConnectionId(topic, d) {
      var k := |Print(topic) + [DASH]|;
      assert ConnectionId(topic, c)[k..] == PrintConnection(c);
      assert ConnectionId(topic, d)[k..] == PrintConnection(d);
      ConnectionRoundTrip(c);
      ConnectionRoundTrip(d);
    }
  }

  /** Splitting on '-' recovers the topic and both ends. */
  lemma ConnectionIdSplits(topic: Name, c: Connection)
    ensures Split(ConnectionId(topic, c)) == [Print(topic), Print(c.publisher), Print(c.subscriber)]
  {
    NoDash(topic);
    NoDash(c.publisher);
    NoDash(c.subscriber);
    SplitThree(Print(topic), Print(c.publisher), Print(c.subscriber));
    assert ConnectionId(topic, c) == Print(topic) + [DASH] + Print(c.publisher) + [DASH] + Print(c.subscriber);
  }

  predicate IsInvolved(c: Connection, me: Name) {
    c.publisher == me || c.subscriber == me
  }

  // ----- signal ids -----

  /** The id under which self waits for peer at the signaling server. */
  function SignalId(topic: Name, self: Name, peer: Name): Text {
    Print(topic) + [DASH] + Print(self) + [DASH] + Print(peer)
  }

  /** Splitting on '-' recovers the topic, the node itself and its peer. */
  lemma SignalIdSplits(topic: Name, self: Name, peer: Name)
    ensures Split(SignalId(topic, self, peer)) == [Print(topic), Print(self), Print(peer)]
  {
    NoDash(topic);
    NoDash(self);
    NoDash(peer);
    SplitThree(Print(topic), Print(self), Print(peer));
  }

  lemma SignalIdInjective(topic: Name, a: Name, b: Name, c: Name, d: Name)
    ensures SignalId(topic, a, b) == SignalId(topic, c, d) <==> a == c && b == d
  {
    SignalIdSplits(topic, a, b);
    SignalIdSplits(topic, c, d);
    PrintInjective(a, c);
    PrintInjective(b, d);
  }
}
