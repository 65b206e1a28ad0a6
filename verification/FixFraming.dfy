/** The gateway's read loop: lines and timed-out partial lines go into a buffer, and after every line the
    buffer is drained of messages. */
module FixFraming {
  import opened FixMessages

  /** What one read gives: up to and including the next SOH, or what had arrived when it timed out. */
  datatype Chunk = Line(data: bytes) | Partial(data: bytes)

  predicate ChunkOk(c: Chunk) {
    match c
    case Line(b) => b != [] && b[|b| - 1] == SOH && SOH !in b[..|b| - 1]
    case Partial(b) => SOH !in b
  }

  datatype Event = Got(fields: Fields, consumed: nat) | Dropped
  datatype Result = Result(buf: bytes, log: seq<Event>)

  /** Messages are taken from the buffer until it gives no more; a buffer that cannot be read is dropped. */
  function Drain(buf: bytes): Result
    decreases |buf|
  {
    match ReadFIXMessage(buf)
    case Nothing => Result(buf, [])
    case Invalid => Result([], [Dropped])
    case Message(fields, n) =>
      var r := Drain(buf[n..]);
      Result(r.buf, [Got(fields, n)] + r.log)
  }

  function Run(buf: bytes, chunks: seq<Chunk>): Result
    decreases |chunks|
  {
    if chunks == [] then Result(buf, [])
    else if chunks[0].Partial? then Run(buf + chunks[0].data, chunks[1..])
    else
      var d := Drain(buf + chunks[0].data);
      var r := Run(d.buf, chunks[1..]);
      Result(r.buf, d.log + r.log)
  }

  lemma DrainIs(buf: bytes)
    ensures var r := ReadFIXMessage(buf);
            var next := Drain(if r.Message? then buf[r.consumed..] else []);
            Drain(buf) == if r.Nothing? then Result(buf, []) else if r.Invalid? then Result([], [Dropped])
                          else Result(next.buf, [Got(r.fields, r.consumed)] + next.log)
  {
    hide ReadFIXMessage;
  }

  /** The inner loop: take messages until the buffer gives no more. */
  method TakeMessages(data: bytes) returns (buf: bytes, log: seq<Event>)
    ensures Result(buf, log) == Drain(data)
  {
    hide *;
    buf, log := data, [];
    while true
      invariant Drain(data) == Result(Drain(buf).buf, log + Drain(buf).log)
      decreases |buf|
    {
      DrainIs(buf);
      var r := ReadFIXMessage(buf);
      if r.Invalid? {
        return [], log + [Dropped];
      }
      if r.Nothing? {
        return;
      }
      var e := Got(r.fields, r.consumed);
      assert log + ([e] + Drain(buf[r.consumed..]).log) == log + [e] + Drain(buf[r.consumed..]).log;
      buf := buf[r.consumed..];
      log := log + [e];
    }
  }

  /** The loop of a connection, over all its reads. */
  method HandleConnection(chunks: seq<Chunk>) returns (buf: bytes, log: seq<Event>)
    ensures Result(buf, log) == Run([], chunks)
  {
    hide Drain;
    buf, log := [], [];
    assert chunks[0..] == chunks;
    for i := 0 to |chunks|
      invariant Run([], chunks) == Result(Run(buf, chunks[i..]).buf, log + Run(buf, chunks[i..]).log)
    {
      assert chunks[i..][1..] == chunks[i + 1..];
      buf := buf + chunks[i].data;
      if chunks[i].Partial? {
        continue;
      }
      var more;
      buf, more := TakeMessages(buf);
      assert log + (more + Run(buf, chunks[i + 1..]).log) == log + more + Run(buf, chunks[i + 1..]).log;
      log := log + more;
    }
  }

  // ----- Streams of built messages -----

  datatype Sent = Sent(fields: Fields, order: seq<int>)

  predicate SentOk(m: Sent) {
    Printable(m.fields) && TagOrder(m.fields, m.order) && 8 in m.fields
  }

  function Body(m: Sent): bytes
    requires SentOk(m)
  {
    Print(m.fields, m.order)
  }

  function Stream(ms: seq<Sent>): bytes
    requires forall i | 0 <= i < |ms| :: SentOk(ms[i])
  {
    if ms == [] then [] else Sealed(Body(ms[0])) + Stream(ms[1..])
  }

  function Cat(chunks: seq<Chunk>): bytes {
    if chunks == [] then [] else chunks[0].data + Cat(chunks[1..])
  }

  /** Exactly the messages sent, each in full and with its checksum field. */
  function Expected(ms: seq<Sent>): seq<Event>
    requires forall i | 0 <= i < |ms| :: SentOk(ms[i])
  {
    if ms == [] then []
    else [Got(ms[0].fields[10 := Pad3(Checksum(Body(ms[0])))], |Sealed(Body(ms[0]))|)] + Expected(ms[1..])
  }

  predicate HasTen(data: bytes) {
    LastFrom(data, TEN_EQUALS, |data|) >= 0
  }

  lemma HasTenIs(data: bytes)
    ensures HasTen(data) <==> exists j :: At(data, TEN_EQUALS, j)
  {
    if j :| At(data, TEN_EQUALS, j) {
      assert j <= |data|;
    }
  }

  /** A body is made of whole lines and starts with the BeginString. */
  lemma {:induction false} PrintEndsLine(fields: Fields, keys: seq<int>)
    requires forall i | 0 <= i < |keys| :: keys[i] in fields
    ensures keys != [] ==> Print(fields, keys) != [] && Print(fields, keys)[|Print(fields, keys)| - 1] == SOH
    decreases |keys|
  {
    if |keys| > 1 {
      PrintEndsLine(fields, keys[1..]);
    }
  }

  /** What the framing of one message rests on: where its line ends are and where "10=" is. */
  lemma SentIs(m: Sent)
    requires SentOk(m)
    ensures var b, s := Body(m), Sealed(Body(m));
            && |b| >= 2 && b[|b| - 1] == SOH && At(b, EIGHT_EQUALS, 0)
            && |s| == |b| + 7 && s[..|b|] == b && s[|s| - 1] == SOH && (forall k | |b| <= k < |s| - 1 :: s[k] != SOH)
            && At(s, TEN_EQUALS, |b|)
  {
    assert Listed(m.order, 8);
    PrintEndsLine(m.fields, m.order);
    PrintStartsWithEight(m.fields, m.order);
    var b, s, c := Body(m), Sealed(Body(m)), Pad3(Checksum(Body(m)));
    Pad3Is(Checksum(b));
    assert s == b + TEN_EQUALS + c + [SOH];
    assert s[|b|..|b| + 3] == TEN_EQUALS;
  }

  /** A line that does not complete the message is in its body. */
  lemma LineInBody(m: Sent, buf: bytes)
    requires SentOk(m) && buf < Sealed(Body(m)) && buf != [] && buf[|buf| - 1] == SOH
    ensures buf <= Body(m)
  {
    SentIs(m);
    var s := Sealed(Body(m));
    assert s[|buf| - 1] == SOH;
    assert buf == s[..|buf|];
  }

  lemma PrefixTen(data: bytes, pre: bytes)
    requires pre <= data && HasTen(pre)
    ensures HasTen(data)
  {
    HasTenIs(pre);
    HasTenIs(data);
    var j :| At(pre, TEN_EQUALS, j);
    assert data[j..j + 3] == pre[j..j + 3];
    assert At(data, TEN_EQUALS, j);
  }

  /** Nothing is read from a line without "10=", and a line of the body with it is taken for the end of the
      message. */
  lemma ReadInBody(m: Sent, buf: bytes)
    requires SentOk(m) && buf <= Body(m) && buf != [] && buf[|buf| - 1] == SOH
    ensures !HasTen(buf) ==> Drain(buf) == Result(buf, [])
    ensures HasTen(buf) ==> Drain(buf).log != [] && Drain(buf).log[0].Got? && Drain(buf).log[0].consumed <= |Body(m)|
  {
    SentIs(m);
    DrainIs(buf);
    if HasTen(buf) {
      ReadsSomething(buf, Body(m));
    } else {
      ReadsNothing(buf);
    }
  }

  lemma ReadsNothing(buf: bytes)
    requires !HasTen(buf)
    ensures ReadFIXMessage(buf) == Nothing
  {
  }

  lemma ReadsSomething(buf: bytes, body: bytes)
    requires HasTen(buf) && buf != [] && buf[|buf| - 1] == SOH && buf <= body && At(body, EIGHT_EQUALS, 0)
    ensures ReadFIXMessage(buf).Message?
  {
    hide Parsed;
    var idx := LastFrom(buf, TEN_EQUALS, |buf|);
    assert At(buf, [SOH], |buf| - 1);
    var end := FirstFrom(buf, [SOH], idx);
    TenPlace(buf, idx, end);
    var raw := buf[..end + 1];
    assert raw[0..2] == buf[0..2] == body[0..2];
    assert At(raw, EIGHT_EQUALS, 0);
  }

  lemma TenPlace(buf: bytes, idx: int, end: int)
    requires At(buf, TEN_EQUALS, idx) && At(buf, [SOH], end) && idx <= end
    ensures end >= 3
  {
    assert buf[idx..idx + 3][0] == 49 && buf[idx..idx + 3][1] == 48 && buf[idx..idx + 3][2] == 61;
    assert buf[end..end + 1][0] == SOH;
  }

  lemma ReadWhole(m: Sent)
    requires SentOk(m)
    ensures var s := Sealed(Body(m)); Drain(s) == Result([], [Got(m.fields[10 := Pad3(Checksum(Body(m)))], |s|)])
  {
    ReadOfBuild(m.fields, m.order);
    var s := Sealed(Body(m));
    assert s[|s|..] == [];
    assert ReadFIXMessage([]) == Nothing;
  }

  /** No serialized body contains "10=". */
  predicate Clean(ms: seq<Sent>)
    requires forall i | 0 <= i < |ms| :: SentOk(ms[i])
  {
    forall i | 0 <= i < |ms| :: !HasTen(Body(ms[i]))
  }

  /** The read loop in the middle of a stream: the whole lines of the message that is coming in, a partial
      line, and the reads still to come. */
  ghost predicate Midway(done: bytes, part: bytes, chunks: seq<Chunk>, ms: seq<Sent>) {
    && (forall i | 0 <= i < |ms| :: SentOk(ms[i])) && (forall i | 0 <= i < |chunks| :: ChunkOk(chunks[i]))
    && done + part + Cat(chunks) == Stream(ms)
    && (if ms == [] then done + part == [] else |done + part| < |Sealed(Body(ms[0]))|)
    && !HasTen(done) && (done == [] || done[|done| - 1] == SOH) && SOH !in part
  }

  /** A piece without SOH ends before the next SOH of what it is read from. */
  lemma StopsBefore(done: bytes, x: bytes, whole: bytes, n: int)
    requires done + x <= whole && |done| <= n < |whole| && whole[n] == SOH && SOH !in x
    ensures |done + x| <= n
  {
    forall m | |done| <= m < |done + x| ensures whole[m] != SOH {
      assert whole[m] == (done + x)[m] == x[m - |done|];
    }
  }

  lemma PartialStays(done: bytes, part: bytes, chunks: seq<Chunk>, ms: seq<Sent>)
    requires Midway(done, part, chunks, ms) && chunks != [] && chunks[0].Partial?
    ensures Midway(done, part + chunks[0].data, chunks[1..], ms)
            && done + (part + chunks[0].data) == done + part + chunks[0].data
  {
    hide SentOk, HasTen, Sealed, Body, Print;
    var b := chunks[0].data;
    assert ChunkOk(chunks[0]);
    assert done + part + Cat(chunks) == done + (part + b) + Cat(chunks[1..]);
    if ms != [] {
      SentIs(ms[0]);
      StopsBefore(done, part + b, Stream(ms), |Sealed(Body(ms[0]))| - 1);
    }
  }

  /** A read line ends inside the message that is coming in or at its end, never beyond. */
  lemma LineStops(done: bytes, part: bytes, chunks: seq<Chunk>, ms: seq<Sent>)
    requires Midway(done, part, chunks, ms) && chunks != [] && chunks[0].Line?
    ensures ms != []
    ensures var buf, s := done + part + chunks[0].data, Sealed(Body(ms[0]));
            && buf != [] && buf[|buf| - 1] == SOH && buf + Cat(chunks[1..]) == Stream(ms)
            && buf <= s && (buf == s ==> !HasTen(Body(ms[0])))
  {
    hide *;
    LineGiven(done, part, chunks, ms);
    SentIs(ms[0]);
    var b := chunks[0].data;
    var buf, x := done + part + b, part + b[..|b| - 1];
    LineWithout(part, b);
    assert buf == done + x + [SOH];
    InFirst(done, x, buf, Cat(chunks[1..]), Sealed(Body(ms[0])), Stream(ms[1..]));
    if buf == Sealed(Body(ms[0])) {
      WholeLines(done, x, Body(ms[0]), buf);
    }
  }

  lemma LineWithout(part: bytes, b: bytes)
    requires SOH !in part && b != [] && b[|b| - 1] == SOH && SOH !in b[..|b| - 1]
    ensures SOH !in part + b[..|b| - 1] && b == b[..|b| - 1] + [SOH]
  {
  }

  lemma LineGiven(done: bytes, part: bytes, chunks: seq<Chunk>, ms: seq<Sent>)
    requires Midway(done, part, chunks, ms) && chunks != [] && chunks[0].Line?
    ensures ms != [] && (forall i | 0 <= i < |ms| :: SentOk(ms[i])) && |done + part| < |Sealed(Body(ms[0]))|
    ensures var b := chunks[0].data;
            && b != [] && b[|b| - 1] == SOH && SOH !in b[..|b| - 1]
            && SOH !in part && !HasTen(done) && (done == [] || done[|done| - 1] == SOH)
            && done + part + b + Cat(chunks[1..]) == Stream(ms) == Sealed(Body(ms[0])) + Stream(ms[1..])
  {
    hide SentOk, HasTen, Sealed;
    assert ChunkOk(chunks[0]);
    assert done + part + (chunks[0].data + Cat(chunks[1..])) == done + part + chunks[0].data + Cat(chunks[1..]);
  }

  lemma InFirst(done: bytes, x: bytes, buf: bytes, rest: bytes, s: bytes, more: bytes)
    requires buf == done + x + [SOH] && buf + rest == s + more && |done| < |s| && s[|s| - 1] == SOH && SOH !in x
    ensures buf <= s
  {
    var whole := s + more;
    assert whole[|s| - 1] == SOH && done + x <= buf + rest;
    StopsBefore(done, x, whole, |s| - 1);
    assert buf == (buf + rest)[..|buf|] == s[..|buf|];
  }

  /** When the line of the checksum has been read, the lines before it are the body. */
  lemma WholeLines(done: bytes, x: bytes, body: bytes, s: bytes)
    requires done + x + [SOH] == s && |s| == |body| + 7 && s[..|body|] == body && body != [] && body[|body| - 1] == SOH
    requires forall k | |body| <= k < |s| - 1 :: s[k] != SOH
    requires (done == [] || done[|done| - 1] == SOH) && |done| < |s| && SOH !in x
    ensures done == body
  {
    assert done + x <= s && s[|body| - 1] == SOH;
    if done != [] {
      assert s[|done| - 1] == SOH;
    }
    if |done| < |body| {
      StopsBefore(done, x, s, |body| - 1);
    } else {
      assert done == s[..|done|];
    }
  }

  lemma ExpectedNext(ms: seq<Sent>)
    requires ms != [] && forall i | 0 <= i < |ms| :: SentOk(ms[i])
    ensures Clean(ms) <==> !HasTen(Body(ms[0])) && Clean(ms[1..])
  {
    hide SentOk, HasTen;
    if !HasTen(Body(ms[0])) && Clean(ms[1..]) {
      forall i | 0 <= i < |ms| ensures !HasTen(Body(ms[i])) {
        if i > 0 {
          assert ms[i] == ms[1..][i - 1];
        }
      }
    }
  }

  /** From anywhere midway the loop reads exactly the messages sent just when no body contains "10=". */
  lemma {:induction false} FramingFrom(done: bytes, part: bytes, chunks: seq<Chunk>, ms: seq<Sent>)
    requires Midway(done, part, chunks, ms)
    ensures Run(done + part, chunks) == Result([], Expected(ms)) <==> Clean(ms)
    decreases |chunks|
  {
    hide *;
    MidwayIs(done, part, chunks, ms);
    if chunks == [] {
      AllRead();
    } else if chunks[0].Partial? {
      PartialStays(done, part, chunks, ms);
      RunPartial(done + part, chunks);
      FramingFrom(done, part + chunks[0].data, chunks[1..], ms);
    } else {
      LineStops(done, part, chunks, ms);
      var buf := done + part + chunks[0].data;
      assert forall i | 0 <= i < |chunks[1..]| :: ChunkOk(chunks[1..][i]);
      RunLine(done + part, chunks);
      ExpectedNext(ms);
      if buf == Sealed(Body(ms[0])) {
        ReadWhole(ms[0]);
        MessageDone(buf, chunks[1..], ms);
        FramingFrom([], [], chunks[1..], ms[1..]);
        var empty: bytes := [];
        assert empty + empty == [];
        MoreExpected(ms, Run([], chunks[1..]));
      } else {
        LineInBody(ms[0], buf);
        ReadInBody(ms[0], buf);
        if HasTen(buf) {
          PrefixTen(Body(ms[0]), buf);
          Misread(ms, Drain(buf), Run(Drain(buf).buf, chunks[1..]));
        } else {
          LineTaken(buf, chunks[1..], ms);
          FramingFrom(buf, [], chunks[1..], ms);
        }
      }
    }
  }

  lemma MidwayIs(done: bytes, part: bytes, chunks: seq<Chunk>, ms: seq<Sent>)
    requires Midway(done, part, chunks, ms)
    ensures forall i | 0 <= i < |ms| :: SentOk(ms[i])
    ensures forall i | 0 <= i < |chunks| :: ChunkOk(chunks[i])
    ensures chunks == [] ==> ms == [] && done + part == []
  {
    assert done + part + [] == done + part;
  }

  lemma AllRead()
    ensures Run([], []) == Result([], Expected([])) && Clean([])
  {
  }

  lemma RunPartial(buf: bytes, chunks: seq<Chunk>)
    requires chunks != [] && chunks[0].Partial?
    ensures Run(buf, chunks) == Run(buf + chunks[0].data, chunks[1..])
  {
  }

  lemma RunLine(buf: bytes, chunks: seq<Chunk>)
    requires chunks != [] && chunks[0].Line?
    ensures var d := Drain(buf + chunks[0].data); var r := Run(d.buf, chunks[1..]);
            Run(buf, chunks) == Result(r.buf, d.log + r.log)
  {
  }

  lemma MessageDone(buf: bytes, chunks: seq<Chunk>, ms: seq<Sent>)
    requires ms != [] && (forall i | 0 <= i < |ms| :: SentOk(ms[i]))
             && (forall i | 0 <= i < |chunks| :: ChunkOk(chunks[i]))
    requires buf + Cat(chunks) == Stream(ms) && buf == Sealed(Body(ms[0]))
    ensures Midway([], [], chunks, ms[1..])
  {
    hide SentOk, Sealed;
    assert Stream(ms)[|buf|..] == Stream(ms[1..]);
    var empty: bytes := [];
    assert empty + empty + Cat(chunks) == Cat(chunks) == (buf + Cat(chunks))[|buf|..];
    if |ms| > 1 {
      SealedLong(Body(ms[1]));
    }
  }

  lemma SealedLong(body: bytes)
    ensures |Sealed(body)| > 0
  {
  }

  lemma LineTaken(buf: bytes, chunks: seq<Chunk>, ms: seq<Sent>)
    requires ms != [] && (forall i | 0 <= i < |ms| :: SentOk(ms[i]))
             && (forall i | 0 <= i < |chunks| :: ChunkOk(chunks[i]))
    requires buf + Cat(chunks) == Stream(ms) && buf < Sealed(Body(ms[0]))
    requires buf != [] && buf[|buf| - 1] == SOH && !HasTen(buf)
    ensures Midway(buf, [], chunks, ms) && buf + [] == buf
  {
    hide SentOk, Sealed, HasTen;
    assert buf + [] + Cat(chunks) == buf + Cat(chunks);
  }

  lemma MoreExpected(ms: seq<Sent>, r: Result)
    requires ms != [] && forall i | 0 <= i < |ms| :: SentOk(ms[i])
    ensures var e := [Got(ms[0].fields[10 := Pad3(Checksum(Body(ms[0])))], |Sealed(Body(ms[0]))|)];
            Result(r.buf, e + r.log) == Result([], Expected(ms)) <==> r == Result([], Expected(ms[1..]))
  {
    hide SentOk, Sealed, Pad3;
    var e := [Got(ms[0].fields[10 := Pad3(Checksum(Body(ms[0])))], |Sealed(Body(ms[0]))|)];
    assert (e + r.log)[1..] == r.log && (e + Expected(ms[1..]))[1..] == Expected(ms[1..]);
  }

  lemma Misread(ms: seq<Sent>, d: Result, r: Result)
    requires ms != [] && forall i | 0 <= i < |ms| :: SentOk(ms[i])
    requires d.log != [] && d.log[0].Got? && d.log[0].consumed <= |Body(ms[0])|
    ensures Result(r.buf, d.log + r.log) != Result([], Expected(ms))
  {
    SealedLonger(Body(ms[0]));
    hide SentOk, Sealed, Pad3;
    assert (d.log + r.log)[0] == d.log[0];
  }

  lemma SealedLonger(body: bytes)
    ensures |Sealed(body)| > |body|
  {
  }

  lemma StartsMidway(chunks: seq<Chunk>, ms: seq<Sent>)
    requires (forall i | 0 <= i < |ms| :: SentOk(ms[i])) && (forall i | 0 <= i < |chunks| :: ChunkOk(chunks[i]))
    requires Cat(chunks) == Stream(ms)
    ensures Midway([], [], chunks, ms)
  {
    hide SentOk, Sealed;
    var empty: bytes := [];
    assert empty + empty + Cat(chunks) == Cat(chunks);
    if ms != [] {
      SealedLong(Body(ms[0]));
    }
  }

  /** However the reads split the stream, the read loop yields exactly the messages that were built, once
      each, in order and with nothing left over, if and only if no serialized body contains "10=". */
  lemma FramingExactWhen(ms: seq<Sent>, chunks: seq<Chunk>)
    requires (forall i | 0 <= i < |ms| :: SentOk(ms[i])) && (forall i | 0 <= i < |chunks| :: ChunkOk(chunks[i]))
    requires Cat(chunks) == Stream(ms)
    ensures Run([], chunks) == Result([], Expected(ms)) <==> Clean(ms)
  {
    hide SentOk, Sealed;
    StartsMidway(chunks, ms);
    FramingFrom([], [], chunks, ms);
    var empty: bytes := [];
    assert empty + empty == [];
  }

  lemma SuffixTen(a: bytes, b: bytes)
    requires HasTen(b)
    ensures HasTen(a + b)
  {
    HasTenIs(b);
    HasTenIs(a + b);
    var j :| At(b, TEN_EQUALS, j);
    assert (a + b)[|a| + j..|a| + j + 3] == b[j..j + 3];
    assert At(a + b, TEN_EQUALS, |a| + j);
  }

  /** A field whose tag ends in the digits 10, such as 110, is mistaken for the checksum. */
  lemma {:induction false} Tag110IsNotClean(fields: Fields, keys: seq<int>, i: nat)
    requires i < |keys| && keys[i] == 110 && forall k | 0 <= k < |keys| :: keys[k] in fields
    ensures HasTen(Print(fields, keys))
    decreases i
  {
    assert keys[0..] == keys;
    PrintNext(fields, keys, 0);
    if i > 0 {
      Tag110IsNotClean(fields, keys[1..], i - 1);
      SuffixTen(Itoa(keys[0]) + [EQUALS] + fields[keys[0]] + [SOH], Print(fields, keys[1..]));
    } else {
      assert Digits(110) == Digits(11) + [ZERO] && Digits(11) == Digits(1) + [49] && Digits(1) == [49];
      assert Print(fields, keys)[1..4] == TEN_EQUALS;
      assert At(Print(fields, keys), TEN_EQUALS, 1);
    }
  }
}
