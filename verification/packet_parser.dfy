/** PacketParser::feed of core/src/network/webrtc.rs: frames recovered from a byte stream cut anywhere. */
module PacketParsing {
  import opened Basics
  import opened Wire

  const MAX_PARSE_RETRIES := 5

  type Output = seq<(Header, Text)>

  /** The fields of the parser between two feeds. */
  datatype Fields = Fields(buffer: Text, pending: Option<Header>, retries: nat)

  const FRESH := Fields([], None, 0)

  /** Position of the first NUL byte, or the length. */
  function NulAt(b: Text): nat {
    if b == [] || b[0] == 0 then 0 else 1 + NulAt(b[1..])
  }

  lemma {:induction false} NulAtIs(b: Text)
    ensures NulAt(b) <= |b|
    ensures forall i :: 0 <= i < NulAt(b) ==> b[i] != 0
    ensures NulAt(b) < |b| ==> b[NulAt(b)] == 0
  {
    if b != [] && b[0] != 0 {
      NulAtIs(b[1..]);
    }
  }

  lemma {:induction false} NulAtFirst(a: Text, rest: Text)
    requires 0 !in a
    ensures NulAt(a + [0] + rest) == |a|
    ensures NulAt(a) == |a|
  {
    if a == [] {
      assert a + [0] + rest == [0] + rest;
    } else {
      assert (a + [0] + rest)[1..] == a[1..] + [0] + rest;
      NulAtFirst(a[1..], rest);
    }
  }

  /** The loop of feed, once the new data has been appended. */
  function Drain(decode: Text -> Option<Header>, s: Fields): (Fields, Output)
    decreases |s.buffer|, if s.pending.Some? then 1 else 0
  {
    match s.pending
    case Some(h) =>
      if |s.buffer| < h.length then (s, []) else
        var (t, out) := Drain(decode, Fields(s.buffer[h.length..], None, 0));
        (t, [(h, s.buffer[..h.length])] + out)
    case None =>
      NulAtIs(s.buffer);
      var i := NulAt(s.buffer);
      if i == |s.buffer| then (s, []) else
        var rest := s.buffer[i + 1..];
        match decode(s.buffer[..i])
        case Some(h) => Drain(decode, Fields(rest, Some(h), 0))
        case None =>
          if s.retries + 1 > MAX_PARSE_RETRIES then (Fields([], None, 0), [])
          else (Fields(rest, None, s.retries + 1), [])
  }

  function Feed(decode: Text -> Option<Header>, s: Fields, data: Text): (Fields, Output) {
    Drain(decode, s.(buffer := s.buffer + data))
  }

  /** The result of a run that had already completed some packets. */
  function After(done: Output, r: (Fields, Output)): (Fields, Output) {
    (r.0, done + r.1)
  }

  lemma {:induction false} AfterPacket(decode: Text -> Option<Header>, s: Fields, done: Output)
    requires s.pending.Some? && |s.buffer| >= s.pending.value.length
    ensures var h := s.pending.value;
      After(done, Drain(decode, s)) ==
      After(done + [(h, s.buffer[..h.length])], Drain(decode, Fields(s.buffer[h.length..], None, 0)))
  {
    var h := s.pending.value;
    var out := Drain(decode, Fields(s.buffer[h.length..], None, 0)).1;
    assert done + ([(h, s.buffer[..h.length])] + out) == (done + [(h, s.buffer[..h.length])]) + out;
  }

  lemma AfterNothing(done: Output, s: Fields)
    ensures After(done, (s, [])) == (s, done)
    ensures After([], (s, done)) == (s, done)
  {
    assert done + [] == done && [] + done == done;
  }

  class PacketParser {
    const decode: Text -> Option<Header>
    var buffer: Text
    var pendingHeader: Option<Header>
    var parseRetries: nat

    ghost function State(): Fields
      reads this
    {
      Fields(buffer, pendingHeader, parseRetries)
    }

    constructor (decode: Text -> Option<Header>)
      ensures State() == Fields([], None, 0) && this.decode == decode
    {
      this.decode := decode;
      buffer, pendingHeader, parseRetries := [], None, 0;
    }

    method Position() returns (i: nat)
      ensures i == NulAt(buffer) <= |buffer|
      ensures (forall j :: 0 <= j < i ==> buffer[j] != 0) && (i < |buffer| ==> buffer[i] == 0)
    {
      i := 0;
      NulAtIs(buffer);
      while i < |buffer| && buffer[i] != 0
        invariant i <= |buffer|
        invariant i + NulAt(buffer[i..]) == NulAt(buffer)
      {
        assert buffer[i..][1..] == buffer[i + 1..];
        i := i + 1;
      }
    }

    /** Feed new data, return the packets it completes. */
    method FeedData(data: Text) returns (complete: Output)
      modifies this
      ensures (State(), complete) == Feed(decode, old(State()), data)
    {
      buffer := buffer + data;
      complete := [];
      ghost var goal := Drain(decode, State());
      AfterNothing(goal.1, goal.0);
      while true
        invariant goal == After(complete, Drain(decode, State()))
        decreases |buffer|, if pendingHeader.Some? then 1 else 0
      {
        if pendingHeader.Some? {
          var header := pendingHeader.value;
          if |buffer| >= header.length {
            AfterPacket(decode, State(), complete);
            pendingHeader := None;
            complete := complete + [(header, buffer[..header.length])];
            buffer := buffer[header.length..];
            parseRetries := 0;
          } else {
            AfterNothing(complete, State());
            break;
          }
        } else {
          var nullPos := Position();
          NulAtIs(buffer);
          if nullPos == |buffer| {
            AfterNothing(complete, State());
            break;
          }
          var headerBytes := buffer[..nullPos];
          buffer := buffer[nullPos + 1..];
          var decoded := decode(headerBytes);
          if decoded.Some? {
            pendingHeader := decoded;
            parseRetries := 0;
          } else {
            parseRetries := parseRetries + 1;
            if parseRetries > MAX_PARSE_RETRIES {
              buffer := [];
              parseRetries := 0;
            }
            AfterNothing(complete, State());
            break;
          }
        }
      }
    }
  }

  /** The retry counter never leaves 0..5, whatever arrives. */
  lemma {:induction false} RetriesBounded(decode: Text -> Option<Header>, s: Fields)
    requires s.retries <= 5
    ensures Drain(decode, s).0.retries <= 5
    decreases |s.buffer|, if s.pending.Some? then 1 else 0
  {
    match s.pending
    case Some(h) =>
      if |s.buffer| >= h.length {
        RetriesBounded(decode, Fields(s.buffer[h.length..], None, 0));
      }
    case None =>
      NulAtIs(s.buffer);
      var i := NulAt(s.buffer);
      if i < |s.buffer| && decode(s.buffer[..i]).Some? {
        RetriesBounded(decode, Fields(s.buffer[i + 1..], decode(s.buffer[..i]), 0));
      }
  }

  /** The sixth undecodable segment in a row throws away everything buffered behind it; the five before it keep that for
      the next feed. */
  lemma SixthBadSegment(decode: Text -> Option<Header>, seg: Text, behind: Text, before: nat)
    requires 0 !in seg && decode(seg) == None
    ensures Drain(decode, Fields(seg + [0] + behind, None, before)) ==
            (if before < 5 then Fields(behind, None, before + 1) else Fields([], None, 0), [])
  {
    NulAtFirst(seg, behind);
    assert (seg + [0] + behind)[..|seg|] == seg;
    assert (seg + [0] + behind)[|seg| + 1..] == behind;
  }

  // ----- streams of frames and undecodable segments -----

  datatype Item = Good(header: Header, body: Text) | Bad(segment: Text)

  function ItemWire(c: Codec, it: Item): Text {
    match it
    case Good(h, body) => c.printed(h) + [0] + body
    case Bad(seg) => seg + [0]
  }

  function ItemLen(c: Codec, it: Item): nat {
    match it
    case Good(h, body) => |c.printed(h)| + 1 + |body|
    case Bad(seg) => |seg| + 1
  }

  lemma ItemLenIs(c: Codec, it: Item)
    ensures |ItemWire(c, it)| == ItemLen(c, it)
  {
  }

  ghost predicate ValidItem(c: Codec, it: Item) {
    match it
    case Good(h, body) => |body| == h.length
    case Bad(seg) => 0 !in seg && c.decode(seg) == None
  }

  ghost predicate Valid(c: Codec, items: seq<Item>) {
    forall i :: 0 <= i < |items| ==> ValidItem(c, items[i])
  }

  /** The bytes of the items from the j-th on. */
  function WireFrom(c: Codec, items: seq<Item>, j: nat): Text
    decreases |items| - j
  {
    if j >= |items| then [] else ItemWire(c, items[j]) + WireFrom(c, items, j + 1)
  }

  /** What should come out for the items j to k. */
  function Goods(items: seq<Item>, j: nat, k: nat): Output
    decreases k - j
  {
    if j >= k || j >= |items| then []
    else (if items[j].Good? then [(items[j].header, items[j].body)] else []) + Goods(items, j + 1, k)
  }

  function Bads(items: seq<Item>, j: nat, k: nat): nat
    decreases k - j
  {
    if j >= k || j >= |items| then 0
    else (if items[j].Bad? then 1 else 0) + Bads(items, j + 1, k)
  }

  /** How many undecodable segments end at position j. */
  function Trailing(items: seq<Item>, j: nat): nat {
    if j == 0 || j > |items| || items[j - 1].Good? then 0 else 1 + Trailing(items, j - 1)
  }

  /** Never more than five in a row. */
  ghost predicate Tolerable(items: seq<Item>) {
    forall j :: 0 <= j <= |items| ==> Trailing(items, j) <= MAX_PARSE_RETRIES
  }

  ghost predicate GoodAmongSix(items: seq<Item>, i: nat)
    requires i + 6 <= |items|
  {
    exists j :: i <= j < i + 6 && items[j].Good?
  }

  /** Among any six items in a row one is well-formed. */
  lemma TolerableMeans(items: seq<Item>)
    ensures Tolerable(items) <==> forall i :: 0 <= i && i + 6 <= |items| ==> GoodAmongSix(items, i)
  {
    if Tolerable(items) {
      forall i | 0 <= i && i + 6 <= |items|
        ensures GoodAmongSix(items, i)
      {
        TrailingIs(items, i + 6);
        assert Trailing(items, i + 6) <= 5;
      }
    }
    if forall i :: 0 <= i && i + 6 <= |items| ==> GoodAmongSix(items, i) {
      forall j | 0 <= j <= |items|
        ensures Trailing(items, j) <= MAX_PARSE_RETRIES
      {
        TrailingIs(items, j);
        if j >= 6 {
          assert GoodAmongSix(items, j - 6);
        }
      }
    }
  }

  /** It is the length of the longest run of undecodable segments before j. */
  lemma {:induction false} TrailingIs(items: seq<Item>, j: nat)
    requires j <= |items|
    ensures Trailing(items, j) <= j
    ensures forall i :: j - Trailing(items, j) <= i < j ==> items[i].Bad?
    ensures Trailing(items, j) < j ==> items[j - Trailing(items, j) - 1].Good?
  {
    if j > 0 && items[j - 1].Bad? {
      TrailingIs(items, j - 1);
    }
  }

  /** The parser has dealt with items[..j] and holds a beginning of the rest. */
  ghost predicate Tracks(c: Codec, items: seq<Item>, j: nat, s: Fields) {
    && j <= |items|
    && match s.pending
      case None => s.buffer <= WireFrom(c, items, j) && s.retries == Trailing(items, j)
      case Some(h) =>
        && j < |items| && items[j].Good? && items[j].header == h && s.retries == 0
        && s.buffer <= items[j].body + WireFrom(c, items, j + 1)
  }

  /** The bytes received but not dealt with: a pending header stands for its printed form. */
  function Unread(c: Codec, s: Fields): Text {
    match s.pending
    case None => s.buffer
    case Some(h) => c.printed(h) + [0] + s.buffer
  }

  /** Not a single further item is complete. */
  ghost predicate Drained(c: Codec, items: seq<Item>, k: nat, s: Fields) {
    k <= |items| && if k == |items| then Unread(c, s) == [] else |Unread(c, s)| < ItemLen(c, items[k])
  }

  lemma PrefixCut(b: Text, a: Text, rest: Text)
    requires b <= a + rest
    ensures |b| >= |a| ==> b[..|a|] == a && b[|a|..] <= rest
    ensures |b| < |a| ==> b <= a
  {
    if |b| >= |a| {
      assert (a + rest)[..|b|] == b;
      assert b[..|a|] == (a + rest)[..|a|];
      assert (a + rest)[|a|..] == rest;
      assert b[|a|..] == rest[..|b| - |a|];
    }
  }

  lemma {:induction false} ShortOfBoundary(b: Text, head: Text, rest: Text)
    requires 0 !in head && b <= head + ([0] + rest) && |b| <= |head|
    ensures NulAt(b) == |b|
  {
    PrefixCut(b, head, [0] + rest);
    assert |b| == |head| ==> b[..|head|] == b;
    assert b <= head;
    NulAtFirst(b, []);
  }

  lemma {:induction false} PastBoundary(b: Text, head: Text, rest: Text)
    requires 0 !in head && b <= (head + [0]) + rest && |b| > |head|
    ensures NulAt(b) == |head| && b[..|head|] == head && b[|head| + 1..] <= rest
  {
    var k := |head| + 1;
    PrefixCut(b, head + [0], rest);
    assert b == b[..k] + b[k..];
    NulAtFirst(head, b[k..]);
    assert b[..k][..|head|] == head;
  }

  /** At a header boundary: the next item's delimiter has arrived, or there is no NUL in the buffer. */
  lemma {:induction false} AtBoundary(b: Text, head: Text, rest: Text)
    requires 0 !in head && b <= head + [0] + rest
    ensures |b| <= |head| ==> NulAt(b) == |b|
    ensures |b| > |head| ==> NulAt(b) == |head| && b[..|head|] == head && b[|head| + 1..] <= rest
  {
    if |b| <= |head| {
      assert head + [0] + rest == head + ([0] + rest);
      ShortOfBoundary(b, head, rest);
    } else {
      PastBoundary(b, head, rest);
    }
  }

  lemma GoodFront(c: Codec, h: Header, body: Text, rest: Text)
    ensures ItemWire(c, Good(h, body)) + rest == c.printed(h) + [0] + (body + rest)
  {
  }

  lemma BodyArrives(c: Codec, items: seq<Item>, j: nat, s: Fields)
    requires Valid(c, items) && Tracks(c, items, j, s) && s.pending.Some?
    ensures var h := s.pending.value;
      if |s.buffer| < h.length then Drained(c, items, j, s) else
        var t := Fields(s.buffer[h.length..], None, 0);
        && Tracks(c, items, j + 1, t) && s.buffer[..h.length] == items[j].body
        && |Unread(c, s)| + |WireFrom(c, items, j + 1)| == |WireFrom(c, items, j)| + |Unread(c, t)|
  {
    assert ValidItem(c, items[j]);
    PrefixCut(s.buffer, items[j].body, WireFrom(c, items, j + 1));
  }

  lemma HeaderArrives(c: Codec, items: seq<Item>, j: nat, s: Fields)
    requires CodecOk(c) && Valid(c, items) && Tracks(c, items, j, s) && s.pending.None?
    requires j < |items| && items[j].Good?
    ensures var h := items[j].header;
      var i := NulAt(s.buffer);
      if i == |s.buffer| then Drained(c, items, j, s) else
        && i < |s.buffer| && s.buffer[..i] == c.printed(h)
        && Tracks(c, items, j, Fields(s.buffer[i + 1..], Some(h), 0))
        && Unread(c, Fields(s.buffer[i + 1..], Some(h), 0)) == Unread(c, s)
  {
    var h, body, rest := items[j].header, items[j].body, WireFrom(c, items, j + 1);
    GoodFront(c, h, body, rest);
    AtBoundary(s.buffer, c.printed(h), body + rest);
    assert |s.buffer| > |c.printed(h)| ==>
      s.buffer == c.printed(h) + [0] + s.buffer[|c.printed(h)| + 1..] by { NulAtIs(s.buffer); }
  }

  lemma BadArrives(c: Codec, items: seq<Item>, j: nat, s: Fields)
    requires Valid(c, items) && Tolerable(items) && Tracks(c, items, j, s) && s.pending.None?
    requires j < |items| && items[j].Bad?
    ensures var i := NulAt(s.buffer);
      if i == |s.buffer| then Drained(c, items, j, s) else
        && i < |s.buffer| && c.decode(s.buffer[..i]) == None && s.retries + 1 <= MAX_PARSE_RETRIES
        && var t := Fields(s.buffer[i + 1..], None, s.retries + 1);
        && Tracks(c, items, j + 1, t)
        && |Unread(c, s)| + |WireFrom(c, items, j + 1)| == |WireFrom(c, items, j)| + |Unread(c, t)|
  {
    assert ValidItem(c, items[j]);
    assert Trailing(items, j + 1) <= MAX_PARSE_RETRIES;
    AtBoundary(s.buffer, items[j].segment, WireFrom(c, items, j + 1));
  }

  lemma EndOfStream(c: Codec, items: seq<Item>, s: Fields)
    requires Tracks(c, items, |items|, s)
    ensures Drained(c, items, |items|, s) && s.pending.None? && s.buffer == []
  {
  }

  /** A run of the loop deals with the items j to k: with every complete one if none is undecodable, otherwise with
      those up to and including the first undecodable one. */
  ghost predicate Achieves(c: Codec, items: seq<Item>, j: nat, s: Fields, k: nat) {
    var (t, out) := Drain(c.decode, s);
    && j <= k <= |items|
    && Tracks(c, items, k, t)
    && out == Goods(items, j, k)
    && |Unread(c, s)| + |WireFrom(c, items, k)| == |WireFrom(c, items, j)| + |Unread(c, t)|
    && if Bads(items, j, k) == 0 then Drained(c, items, k, t) else Bads(items, j, k) == 1 && k > j && items[k - 1].Bad?
  }

  lemma BodyStep(c: Codec, items: seq<Item>, j: nat, s: Fields, k: nat)
    requires Valid(c, items) && Tracks(c, items, j, s) && s.pending.Some? && |s.buffer| >= s.pending.value.length
    requires Achieves(c, items, j + 1, Fields(s.buffer[s.pending.value.length..], None, 0), k)
    ensures Achieves(c, items, j, s, k)
  {
    BodyArrives(c, items, j, s);
    assert Goods(items, j, k) == [(items[j].header, items[j].body)] + Goods(items, j + 1, k);
  }

  lemma HeaderStep(c: Codec, items: seq<Item>, j: nat, s: Fields, i: nat, k: nat)
    requires CodecOk(c) && Valid(c, items) && Tracks(c, items, j, s) && s.pending.None?
    requires j < |items| && items[j].Good? && i == NulAt(s.buffer) < |s.buffer|
    requires Achieves(c, items, j, Fields(s.buffer[i + 1..], Some(items[j].header), 0), k)
    ensures Achieves(c, items, j, s, k)
  {
    HeaderArrives(c, items, j, s);
    assert c.decode(c.printed(items[j].header)) == Some(items[j].header);
    HeaderDrain(c, s, items[j].header);
    SameRun(c, items, j, s, Fields(s.buffer[i + 1..], Some(items[j].header), 0), k);
  }

  lemma HeaderDrain(c: Codec, s: Fields, h: Header)
    requires s.pending.None? && NulAt(s.buffer) < |s.buffer| && c.decode(s.buffer[..NulAt(s.buffer)]) == Some(h)
    ensures Drain(c.decode, s) == Drain(c.decode, Fields(s.buffer[NulAt(s.buffer) + 1..], Some(h), 0))
  {
  }

  lemma {:induction false} SameRun(c: Codec, items: seq<Item>, j: nat, s: Fields, t: Fields, k: nat)
    requires Achieves(c, items, j, t, k) && Drain(c.decode, s) == Drain(c.decode, t) && Unread(c, s) == Unread(c, t)
    ensures Achieves(c, items, j, s, k)
  {
  }

  lemma BadStep(c: Codec, items: seq<Item>, j: nat, s: Fields)
    requires Valid(c, items) && Tolerable(items) && Tracks(c, items, j, s) && s.pending.None?
    requires j < |items| && items[j].Bad? && NulAt(s.buffer) < |s.buffer|
    ensures Achieves(c, items, j, s, j + 1)
  {
    BadArrives(c, items, j, s);
    assert Bads(items, j + 1, j + 1) == 0 && Goods(items, j + 1, j + 1) == [];
  }

  lemma {:induction false} Waits(c: Codec, items: seq<Item>, j: nat, s: Fields)
    requires Tracks(c, items, j, s) && Drained(c, items, j, s) && Drain(c.decode, s) == (s, [])
    ensures Achieves(c, items, j, s, j)
  {
  }

  lemma {:induction false} DrainTracks(c: Codec, items: seq<Item>, j: nat, s: Fields) returns (k: nat)
    requires CodecOk(c) && Valid(c, items) && Tolerable(items) && Tracks(c, items, j, s)
    ensures Achieves(c, items, j, s, k)
    decreases |s.buffer|, if s.pending.Some? then 1 else 0, 1
  {
    if s.pending.Some? {
      k := DrainBody(c, items, j, s);
    } else if j == |items| {
      k := j;
      EndOfStream(c, items, s);
      Waits(c, items, j, s);
    } else if items[j].Good? {
      k := DrainHeader(c, items, j, s);
    } else {
      k := DrainBad(c, items, j, s);
    }
  }

  lemma {:induction false} DrainBody(c: Codec, items: seq<Item>, j: nat, s: Fields) returns (k: nat)
    requires CodecOk(c) && Valid(c, items) && Tolerable(items) && Tracks(c, items, j, s) && s.pending.Some?
    ensures Achieves(c, items, j, s, k)
    decreases |s.buffer|, 1, 0
  {
    BodyArrives(c, items, j, s);
    if |s.buffer| >= s.pending.value.length {
      k := DrainTracks(c, items, j + 1, Fields(s.buffer[s.pending.value.length..], None, 0));
      BodyStep(c, items, j, s, k);
    } else {
      k := j;
      Waits(c, items, j, s);
    }
  }

  lemma {:induction false} DrainHeader(c: Codec, items: seq<Item>, j: nat, s: Fields) returns (k: nat)
    requires CodecOk(c) && Valid(c, items) && Tolerable(items) && Tracks(c, items, j, s)
    requires s.pending.None? && j < |items| && items[j].Good?
    ensures Achieves(c, items, j, s, k)
    decreases |s.buffer|, 0, 0
  {
    var i := NulAt(s.buffer);
    NulAtIs(s.buffer);
    HeaderArrives(c, items, j, s);
    if i < |s.buffer| {
      k := DrainTracks(c, items, j, Fields(s.buffer[i + 1..], Some(items[j].header), 0));
      HeaderStep(c, items, j, s, i, k);
    } else {
      k := j;
      Waits(c, items, j, s);
    }
  }

  lemma DrainBad(c: Codec, items: seq<Item>, j: nat, s: Fields) returns (k: nat)
    requires CodecOk(c) && Valid(c, items) && Tolerable(items) && Tracks(c, items, j, s)
    requires s.pending.None? && j < |items| && items[j].Bad?
    ensures Achieves(c, items, j, s, k)
  {
    NulAtIs(s.buffer);
    BadArrives(c, items, j, s);
    if NulAt(s.buffer) < |s.buffer| {
      k := j + 1;
      BadStep(c, items, j, s);
    } else {
      k := j;
      Waits(c, items, j, s);
    }
  }

  // ----- whole streams, cut anywhere -----

  function Concat(chunks: seq<Text>): Text {
    if chunks == [] then [] else Concat(chunks[..|chunks| - 1]) + chunks[|chunks| - 1]
  }

  /** Feeding the chunks one after the other; all packets that came out, in order. */
  function FeedAll(c: Codec, chunks: seq<Text>): (Fields, Output) {
    if chunks == [] then (FRESH, []) else
      var (s, out) := FeedAll(c, chunks[..|chunks| - 1]);
      var (t, more) := Feed(c.decode, s, chunks[|chunks| - 1]);
      (t, out + more)
  }

  /** Where item j starts in the stream. */
  function Start(c: Codec, items: seq<Item>, j: nat): nat
    requires j <= |items|
  {
    if j == 0 then 0 else Start(c, items, j - 1) + ItemLen(c, items[j - 1])
  }

  function End(c: Codec, items: seq<Item>, i: nat): nat
    requires i < |items|
  {
    Start(c, items, i + 1)
  }

  lemma CutFront(w: Text, at: nat, item: Text, rest: Text)
    requires at <= |w| && w[at..] == item + rest
    ensures at + |item| + |rest| == |w| && w[at + |item|..] == rest
  {
    assert w[at..][|item|..] == w[at + |item|..];
  }

  /** After n bytes of the stream: items[..j] dealt with, out has come out, s holds the rest of what was received. */
  ghost predicate Synced(c: Codec, items: seq<Item>, n: nat, j: nat, s: Fields, out: Output) {
    Tracks(c, items, j, s) && out == Goods(items, 0, j) && Start(c, items, j) + |Unread(c, s)| == n
  }

  lemma {:induction false} SuffixWire(c: Codec, items: seq<Item>, j: nat)
    requires j <= |items|
    ensures Start(c, items, j) + |WireFrom(c, items, j)| == |WireFrom(c, items, 0)|
    ensures WireFrom(c, items, 0)[Start(c, items, j)..] == WireFrom(c, items, j)
  {
    if j > 0 {
      SuffixWire(c, items, j - 1);
      NextItem(c, items, j - 1);
      CutNext(WireFrom(c, items, 0), Start(c, items, j - 1), WireFrom(c, items, j - 1), ItemWire(c, items[j - 1]),
              WireFrom(c, items, j));
    }
  }

  lemma CutNext(w: Text, at: nat, tail: Text, item: Text, rest: Text)
    requires at <= |w| && w[at..] == tail && tail == item + rest
    ensures at + |item| + |rest| == |w| && w[at + |item|..] == rest
  {
    CutFront(w, at, item, rest);
  }

  lemma {:induction false} NextItem(c: Codec, items: seq<Item>, j: nat)
    requires j < |items|
    ensures WireFrom(c, items, j) == ItemWire(c, items[j]) + WireFrom(c, items, j + 1)
    ensures Start(c, items, j + 1) == Start(c, items, j) + |ItemWire(c, items[j])|
  {
    ItemLenIs(c, items[j]);
  }

  lemma {:induction false} GoodsJoin(items: seq<Item>, i: nat, j: nat, k: nat)
    requires i <= j <= k <= |items|
    ensures Goods(items, i, k) == Goods(items, i, j) + Goods(items, j, k)
    ensures Bads(items, i, k) == Bads(items, i, j) + Bads(items, j, k)
    decreases j - i
  {
    if i < j {
      GoodsJoin(items, i + 1, j, k);
    }
  }

  lemma {:induction false} BodyContinues(c: Codec, items: seq<Item>, n: nat, j: nat, s: Fields, data: Text)
    requires Tracks(c, items, j, s) && s.pending.Some? && Start(c, items, j) + |Unread(c, s)| == n
    requires n + |data| <= |WireFrom(c, items, 0)| && data == WireFrom(c, items, 0)[n..n + |data|]
    ensures s.buffer + data <= items[j].body + WireFrom(c, items, j + 1)
  {
    var at := BodyStart(c, items, j);
    PendingIs(c, items, j, s);
    ContinuesHere(WireFrom(c, items, 0), at, items[j].body + WireFrom(c, items, j + 1), s.buffer, n, data);
  }

  lemma BodyStart(c: Codec, items: seq<Item>, j: nat) returns (at: nat)
    requires j < |items| && items[j].Good?
    ensures at == Start(c, items, j) + |c.printed(items[j].header) + [0]| <= |WireFrom(c, items, 0)|
    ensures WireFrom(c, items, 0)[at..] == items[j].body + WireFrom(c, items, j + 1)
  {
    FromHeader(c, items, j);
    at := AfterFront(WireFrom(c, items, 0), Start(c, items, j), c.printed(items[j].header) + [0],
                     items[j].body + WireFrom(c, items, j + 1));
  }

  lemma AfterFront(w: Text, at: nat, head: Text, rest: Text) returns (k: nat)
    requires at <= |w| && w[at..] == head + rest
    ensures k == at + |head| <= |w| && w[k..] == rest
  {
    CutFront(w, at, head, rest);
    k := at + |head|;
  }

  lemma {:induction false} PendingIs(c: Codec, items: seq<Item>, j: nat, s: Fields)
    requires Tracks(c, items, j, s) && s.pending.Some?
    ensures j < |items| && items[j].Good? && |Unread(c, s)| == |c.printed(items[j].header) + [0]| + |s.buffer|
    ensures s.buffer <= items[j].body + WireFrom(c, items, j + 1)
  {
  }

  lemma {:induction false} FromHeader(c: Codec, items: seq<Item>, j: nat)
    requires j < |items| && items[j].Good?
    ensures Start(c, items, j) <= |WireFrom(c, items, 0)|
    ensures WireFrom(c, items, 0)[Start(c, items, j)..] ==
            (c.printed(items[j].header) + [0]) + (items[j].body + WireFrom(c, items, j + 1))
  {
    SuffixWire(c, items, j);
    GoodFront(c, items[j].header, items[j].body, WireFrom(c, items, j + 1));
  }

  lemma {:induction false} HeaderContinues(c: Codec, items: seq<Item>, n: nat, j: nat, s: Fields, data: Text)
    requires Tracks(c, items, j, s) && s.pending.None? && Start(c, items, j) + |Unread(c, s)| == n
    requires n + |data| <= |WireFrom(c, items, 0)| && data == WireFrom(c, items, 0)[n..n + |data|]
    ensures s.buffer + data <= WireFrom(c, items, j)
  {
    SuffixWire(c, items, j);
    ContinuesHere(WireFrom(c, items, 0), Start(c, items, j), WireFrom(c, items, j), s.buffer, n, data);
  }

  /** New bytes that continue the stream keep the parser tracking it. */
  lemma {:induction false} DataArrives(c: Codec, items: seq<Item>, n: nat, j: nat, s: Fields, data: Text)
    requires Tracks(c, items, j, s) && Start(c, items, j) + |Unread(c, s)| == n
    requires n + |data| <= |WireFrom(c, items, 0)| && data == WireFrom(c, items, 0)[n..n + |data|]
    ensures Tracks(c, items, j, s.(buffer := s.buffer + data))
    ensures Start(c, items, j) + |Unread(c, s.(buffer := s.buffer + data))| == n + |data|
  {
    if s.pending.Some? {
      BodyContinues(c, items, n, j, s, data);
    } else {
      HeaderContinues(c, items, n, j, s, data);
    }
  }

  /** b stands at the start of the text from at on, and data behind it. */
  lemma ContinuesHere(w: Text, at: nat, tail: Text, b: Text, n: nat, data: Text)
    requires at <= |w| && w[at..] == tail && b <= tail && n == at + |b|
    requires n + |data| <= |w| && data == w[n..n + |data|]
    ensures b + data <= tail
  {
    assert tail[..|b| + |data|] == tail[..|b|] + tail[|b|..|b| + |data|];
    assert tail[|b|..|b| + |data|] == w[n..n + |data|];
  }

  lemma FeedSyncs(c: Codec, items: seq<Item>, n: nat, j: nat, s: Fields, out: Output, data: Text)
    returns (k: nat)
    requires CodecOk(c) && Valid(c, items) && Tolerable(items) && Synced(c, items, n, j, s, out)
    requires n + |data| <= |WireFrom(c, items, 0)| && data == WireFrom(c, items, 0)[n..n + |data|]
    ensures var (t, more) := Feed(c.decode, s, data);
      && j <= k && Synced(c, items, n + |data|, k, t, out + more)
      && (if Bads(items, j, k) == 0 then Drained(c, items, k, t) else Bads(items, j, k) == 1 && items[k - 1].Bad?)
  {
    DataArrives(c, items, n, j, s, data);
    k := DrainTracks(c, items, j, s.(buffer := s.buffer + data));
    GoodsJoin(items, 0, j, k);
    SuffixWire(c, items, j);
    SuffixWire(c, items, k);
  }

  lemma {:induction false} ConcatLast(chunks: seq<Text>, w: Text)
    requires chunks != [] && Concat(chunks) <= w
    ensures var (front, data) := (chunks[..|chunks| - 1], chunks[|chunks| - 1]);
      && Concat(front) <= w && |Concat(chunks)| == |Concat(front)| + |data| <= |w|
      && data == w[|Concat(front)|..|Concat(front)| + |data|]
  {
    assert w[..|Concat(chunks)|] == Concat(chunks);
  }

  /** However the bytes are cut, the parser stays in step with the stream. */
  lemma {:induction false} FeedAllSyncs(c: Codec, items: seq<Item>, chunks: seq<Text>) returns (k: nat)
    requires CodecOk(c) && Valid(c, items) && Tolerable(items) && Concat(chunks) <= WireFrom(c, items, 0)
    ensures Synced(c, items, |Concat(chunks)|, k, FeedAll(c, chunks).0, FeedAll(c, chunks).1)
    ensures chunks != [] && Bads(items, 0, k) == 0 ==> Drained(c, items, k, FeedAll(c, chunks).0)
    ensures Drained(c, items, k, FeedAll(c, chunks).0) || Bads(items, 0, k) > 0 || chunks == []
    decreases |chunks|
  {
    if chunks == [] {
      k := 0;
    } else {
      var front := chunks[..|chunks| - 1];
      ConcatLast(chunks, WireFrom(c, items, 0));
      var j := FeedAllSyncs(c, items, front);
      var (s, out) := FeedAll(c, front);
      k := FeedSyncs(c, items, |Concat(front)|, j, s, out, chunks[|chunks| - 1]);
      GoodsJoin(items, 0, j, k);
    }
  }

  // ----- round trip on well-formed streams -----

  function PacketItem(p: Packet): Item
    requires |Body(p)| < 0x1_0000_0000_0000_0000
  {
    Good(GetHeader(p), Body(p))
  }

  function PacketItems(ps: seq<Packet>): seq<Item>
    requires forall p :: p in ps ==> |Body(p)| < 0x1_0000_0000_0000_0000
  {
    seq(|ps|, i requires 0 <= i < |ps| => PacketItem(ps[i]))
  }

  lemma {:induction false} NoBads(items: seq<Item>, j: nat, k: nat)
    requires forall i :: 0 <= i < |items| ==> items[i].Good?
    ensures Bads(items, j, k) == 0
    decreases k - j
  {
    if j < k && j < |items| {
      NoBads(items, j + 1, k);
    }
  }

  /** For any packets and any cutting of the bytes sent for them, or of a beginning of those bytes, the feeds output
      exactly the headers and bodies of the packets whose last byte has arrived, in order, and hold exactly the bytes of
      the unfinished one. Every beginning of a list of chunks is itself such a list, so each packet comes out with the
      feed that completes it. */
  lemma PacketsRoundTrip(c: Codec, ps: seq<Packet>, chunks: seq<Text>) returns (k: nat)
    requires CodecOk(c) && forall p :: p in ps ==> |Body(p)| < 0x1_0000_0000_0000_0000
    requires chunks != [] && Concat(chunks) <= WireFrom(c, PacketItems(ps), 0)
    ensures var items := PacketItems(ps);
      var (s, out) := FeedAll(c, chunks);
      var n := |Concat(chunks)|;
      && k <= |ps| && |out| == k
      && (forall i :: 0 <= i < k ==>
            var (h, body), p := out[i], ps[i];
            && h.action == p.action && h.destination == p.gdpname && h.length == |body|
            && body ==
               (if p.payload.Some? then p.payload.value else []) + (if p.record.Some? then p.record.value else []))
      && Start(c, items, k) <= n && (k < |ps| ==> n < End(c, items, k))
      && Unread(c, s) == WireFrom(c, items, 0)[Start(c, items, k)..n]
  {
    var items := PacketItems(ps);
    PacketsValid(c, ps);
    k := FeedAllSyncs(c, items, chunks);
    NoBads(items, 0, k);
    AllGood(items, k);
    UnreadIs(c, items, |Concat(chunks)|, k, FeedAll(c, chunks).0, FeedAll(c, chunks).1);
  }

  lemma PacketsValid(c: Codec, ps: seq<Packet>)
    requires forall p :: p in ps ==> |Body(p)| < 0x1_0000_0000_0000_0000
    ensures var items := PacketItems(ps);
      Valid(c, items) && Tolerable(items) && forall i :: 0 <= i < |items| ==> items[i].Good?
  {
    var items := PacketItems(ps);
    forall i | 0 <= i < |items|
      ensures ValidItem(c, items[i]) && items[i].Good?
    {
      assert ps[i] in ps;
    }
  }

  lemma {:induction false} AllGood(items: seq<Item>, k: nat)
    requires k <= |items| && forall i :: 0 <= i < |items| ==> items[i].Good?
    ensures |Goods(items, 0, k)| == k
    ensures forall i :: 0 <= i < k ==> Goods(items, 0, k)[i] == (items[i].header, items[i].body)
  {
    if k > 0 {
      AllGood(items, k - 1);
      GoodsJoin(items, 0, k - 1, k);
      assert Goods(items, k - 1, k) == [(items[k - 1].header, items[k - 1].body)] + Goods(items, k, k);
    }
  }

  lemma {:induction false} UnreadIs(c: Codec, items: seq<Item>, n: nat, k: nat, s: Fields, out: Output)
    requires Synced(c, items, n, k, s, out)
    ensures Start(c, items, k) <= n <= |WireFrom(c, items, 0)|
    ensures Drained(c, items, k, s) && k < |items| ==> n < End(c, items, k)
    ensures Unread(c, s) == WireFrom(c, items, 0)[Start(c, items, k)..n]
  {
    SuffixWire(c, items, k);
    UnreadFront(c, items, k, s);
    FrontOf(WireFrom(c, items, 0), Start(c, items, k), Unread(c, s));
  }

  lemma {:induction false} UnreadFront(c: Codec, items: seq<Item>, k: nat, s: Fields)
    requires Tracks(c, items, k, s)
    ensures Unread(c, s) <= WireFrom(c, items, k)
  {
    if s.pending.Some? {
      GoodFront(c, items[k].header, items[k].body, WireFrom(c, items, k + 1));
    }
  }

  lemma FrontOf(w: Text, at: nat, front: Text)
    requires at <= |w| && front <= w[at..]
    ensures at + |front| <= |w| && front == w[at..at + |front|]
  {
  }

  /** Two cuttings of the same bytes give the same packets and leave the same bytes unread. */
  lemma {:induction false} ChunkIndependence(c: Codec, ps: seq<Packet>, a: seq<Text>, b: seq<Text>)
    requires CodecOk(c) && forall p :: p in ps ==> |Body(p)| < 0x1_0000_0000_0000_0000
    requires a != [] && b != [] && Concat(a) == Concat(b) <= WireFrom(c, PacketItems(ps), 0)
    ensures FeedAll(c, a).1 == FeedAll(c, b).1
    ensures Unread(c, FeedAll(c, a).0) == Unread(c, FeedAll(c, b).0)
  {
    var items := PacketItems(ps);
    var j := PacketsRoundTrip(c, ps, a);
    var k := PacketsRoundTrip(c, ps, b);
    SameCount(c, items, |Concat(a)|, j, k);
    SamePackets(ps, FeedAll(c, a).1, FeedAll(c, b).1, k);
  }

  lemma {:induction false} SameCount(c: Codec, items: seq<Item>, n: nat, j: nat, k: nat)
    requires j <= |items| && k <= |items| && Start(c, items, j) <= n && Start(c, items, k) <= n
    requires (j < |items| ==> n < End(c, items, j)) && (k < |items| ==> n < End(c, items, k))
    ensures j == k
  {
    NotPast(c, items, n, j, k);
    NotPast(c, items, n, k, j);
  }

  lemma {:induction false} NotPast(c: Codec, items: seq<Item>, n: nat, j: nat, k: nat)
    requires j <= |items| && k <= |items| && Start(c, items, k) <= n
    requires j < |items| ==> n < End(c, items, j)
    ensures k <= j
  {
    StartGrows(c, items, if j + 1 < k then j + 1 else k, k);
  }

  lemma SamePackets(ps: seq<Packet>, a: Output, b: Output, k: nat)
    requires k <= |ps| && |a| == |b| == k
    requires forall i :: 0 <= i < k ==> Sends(ps[i], a[i].0, a[i].1)
    requires forall i :: 0 <= i < k ==> Sends(ps[i], b[i].0, b[i].1)
    ensures a == b
  {
  }

  lemma {:induction false} StartGrows(c: Codec, items: seq<Item>, j: nat, k: nat)
    requires j <= k <= |items|
    ensures Start(c, items, j) <= Start(c, items, k)
    decreases k - j
  {
    if j < k {
      StartGrows(c, items, j, k - 1);
    }
  }

  lemma {:induction false} LastItem(items: seq<Item>, k: nat)
    requires k < |items|
    ensures Goods(items, k, k + 1) == if items[k].Good? then [(items[k].header, items[k].body)] else []
    ensures Bads(items, k, k + 1) == if items[k].Good? then 0 else 1
  {
    assert Goods(items, k + 1, k + 1) == [] && Bads(items, k + 1, k + 1) == 0;
  }

  lemma {:induction false} GoodsCount(items: seq<Item>, k: nat)
    requires k <= |items|
    ensures |Goods(items, 0, k)| + Bads(items, 0, k) == k
    ensures Bads(items, 0, k) == |set j | 0 <= j < k && items[j].Bad?|
  {
    var bad := set j | 0 <= j < k && items[j].Bad?;
    if k == 0 {
      assert bad == {};
    } else {
      GoodsCount(items, k - 1);
      GoodsJoin(items, 0, k - 1, k);
      LastItem(items, k - 1);
      assert bad == (set j | 0 <= j < k - 1 && items[j].Bad?) + if items[k - 1].Bad? then {k - 1} else {};
    }
  }

  /** What should come out for the first k items: one packet for each well-formed one, in order, each behind those of
      the well-formed ones before it. */
  lemma {:induction false} GoodsAre(items: seq<Item>, k: nat, i: nat)
    requires i < k <= |items| && items[i].Good?
    ensures var bads := |set j | 0 <= j < i && items[j].Bad?|;
      && |Goods(items, 0, k)| == k - |set j | 0 <= j < k && items[j].Bad?| > i - bads >= 0
      && Goods(items, 0, k)[i - bads] == (items[i].header, items[i].body)
  {
    GoodsCount(items, i);
    GoodsCount(items, k);
    GoodsJoin(items, 0, i, k);
    assert Goods(items, i, k)[0] == (items[i].header, items[i].body);
  }

  // ----- resynchronisation -----

  /** Every item that is complete within the first n bytes is among the first k. */
  ghost predicate Covers(c: Codec, items: seq<Item>, n: nat, k: nat) {
    forall i :: 0 <= i < |items| && End(c, items, i) <= n ==> i < k
  }

  lemma DrainedCovers(c: Codec, items: seq<Item>, n: nat, k: nat, s: Fields, out: Output, past: nat)
    requires Synced(c, items, n, k, s, out) && Drained(c, items, k, s) && past <= n
    ensures Covers(c, items, past, k)
  {
    assert k < |items| ==> n < End(c, items, k);
    forall i | k <= i < |items|
      ensures End(c, items, i) > past
    {
      StartGrows(c, items, k + 1, i + 1);
    }
  }

  lemma {:induction false} Covered(c: Codec, items: seq<Item>, n: nat, k: nat, s: Fields, out: Output, past: nat,
                                   more: nat)
    requires Synced(c, items, n, k, s, out) && past <= n
    requires Drained(c, items, k, s) || more < Bads(items, 0, k)
    ensures Covers(c, items, past, k) || more < Bads(items, 0, k)
  {
    if Drained(c, items, k, s) {
      DrainedCovers(c, items, n, k, s, out, past);
    }
  }

  /** One more feed: the parser catches up, or it meets one more undecodable segment. */
  lemma OneMoreFeed(c: Codec, items: seq<Item>, n: nat, j: nat, s: Fields, out: Output, data: Text,
                    past: nat, fed: nat) returns (k: nat)
    requires CodecOk(c) && Valid(c, items) && Tolerable(items) && Synced(c, items, n, j, s, out)
    requires n + |data| <= |WireFrom(c, items, 0)| && data == WireFrom(c, items, 0)[n..n + |data|] && past <= n
    requires Covers(c, items, past, j) || fed < Bads(items, 0, j)
    ensures var (t, more) := Feed(c.decode, s, data);
      Synced(c, items, n + |data|, k, t, out + more) && (Covers(c, items, past, k) || fed + 1 < Bads(items, 0, k))
  {
    k := FeedSyncs(c, items, n, j, s, out, data);
    var (t, more) := Feed(c.decode, s, data);
    GoodsJoin(items, 0, j, k);
    if Covers(c, items, past, j) {
      assert Covers(c, items, past, k);
    } else {
      Covered(c, items, n + |data|, k, t, out + more, past, fed + 1);
    }
  }

  lemma {:induction false} CatchesUp(c: Codec, items: seq<Item>, chunks: seq<Text>, more: seq<Text>)
    returns (k: nat)
    requires CodecOk(c) && Valid(c, items) && Tolerable(items)
    requires chunks != [] && Concat(chunks + more) <= WireFrom(c, items, 0)
    ensures Synced(c, items, |Concat(chunks + more)|, k, FeedAll(c, chunks + more).0, FeedAll(c, chunks + more).1)
    ensures |Concat(chunks)| <= |Concat(chunks + more)|
    ensures Covers(c, items, |Concat(chunks)|, k) || |more| < Bads(items, 0, k)
    decreases |more|
  {
    if more == [] {
      assert chunks + more == chunks;
      k := FeedAllSyncs(c, items, chunks);
      var (s, out) := FeedAll(c, chunks);
      Covered(c, items, |Concat(chunks)|, k, s, out, |Concat(chunks)|, 0);
    } else {
      var front := chunks + more[..|more| - 1];
      assert (chunks + more)[..|chunks + more| - 1] == front;
      assert (chunks + more)[|chunks + more| - 1] == more[|more| - 1];
      ConcatLast(chunks + more, WireFrom(c, items, 0));
      var j := CatchesUp(c, items, chunks, more[..|more| - 1]);
      var (s, out) := FeedAll(c, front);
      k := OneMoreFeed(c, items, |Concat(front)|, j, s, out, more[|more| - 1], |Concat(chunks)|, |more| - 1);
    }
  }

  /** With at most five undecodable segments in a row, no packet is lost or reordered: what has come out is always the
      well-formed packets of the items dealt with, in order, and if the first m items are complete within chunks, their
      packets are out after as many further feeds as there are undecodable segments among those m. */
  lemma Resynchronises(c: Codec, items: seq<Item>, chunks: seq<Text>, more: seq<Text>, m: nat)
    returns (k: nat)
    requires CodecOk(c) && Valid(c, items) && Tolerable(items)
    requires chunks != [] && Concat(chunks + more) <= WireFrom(c, items, 0)
    requires m <= |items| && (m > 0 ==> End(c, items, m - 1) <= |Concat(chunks)|)
    requires |more| >= Bads(items, 0, m)
    ensures m <= k <= |items| && FeedAll(c, chunks + more).1 == Goods(items, 0, k)
    ensures Goods(items, 0, m) <= FeedAll(c, chunks + more).1
  {
    k := CatchesUp(c, items, chunks, more);
    if k < m {
      GoodsJoin(items, 0, k, m);
      assert false;
    }
    GoodsJoin(items, 0, m, k);
  }
}
