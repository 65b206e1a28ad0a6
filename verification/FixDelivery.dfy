/** What a session gets of a stream of built messages: the fields alone, without what the read loop drops or
    how much it consumes. */
module FixDelivery {
  import opened FixMessages
  import opened FixFraming

  function Delivered(log: seq<Event>): seq<Fields> {
    if log == [] then [] else (if log[0].Got? then [log[0].fields] else []) + Delivered(log[1..])
  }

  /** The fields of a message as they should arrive. */
  function Wanted(m: Sent): Fields
    requires SentOk(m)
  {
    m.fields[10 := Pad3(Checksum(Body(m)))]
  }

  function AllWanted(ms: seq<Sent>): seq<Fields>
    requires forall i | 0 <= i < |ms| :: SentOk(ms[i])
  {
    if ms == [] then [] else [Wanted(ms[0])] + AllWanted(ms[1..])
  }

  /** The body without its last line. */
  function Front(m: Sent): bytes
    requires SentOk(m)
  {
    Print(m.fields, m.order[..if m.order == [] then 0 else |m.order| - 1])
  }

  /** A body without "10=", or one with it in its last line only that carries its own checksum as field 10. */
  predicate Readable(m: Sent)
    requires SentOk(m)
  {
    !HasTen(Body(m)) || (!HasTen(Front(m)) && 10 in m.fields && m.fields[10] == Pad3(Checksum(Body(m))))
  }

  lemma {:induction false} PrintAppend(fields: Fields, a: seq<int>, b: seq<int>)
    requires (forall i | 0 <= i < |a| :: a[i] in fields) && (forall i | 0 <= i < |b| :: b[i] in fields)
    ensures Print(fields, a + b) == Print(fields, a) + Print(fields, b)
  {
    hide Field;
    if a == [] {
      assert a + b == b;
      assert Print(fields, a) + Print(fields, b) == Print(fields, b);
    } else {
      assert (a + b)[1..] == a[1..] + b;
      PrintAppend(fields, a[1..], b);
    }
  }

  lemma CutLine(line: bytes, rest: bytes, buf: bytes)
    requires SOH !in line && buf <= line + [SOH] + rest && buf != [] && buf[|buf| - 1] == SOH
    ensures |line| < |buf| && buf == line + [SOH] + buf[|line| + 1..] && buf[|line| + 1..] <= rest
    ensures buf[|line| + 1..] == [] || buf[|line| + 1..][|buf| - |line| - 2] == SOH
  {
    var whole := line + [SOH] + rest;
    assert buf == whole[..|buf|];
    assert forall j | 0 <= j < |line| :: whole[j] == line[j] != SOH;
  }

  /** A beginning of a printed message that ends with a line is its first fields. */
  lemma {:induction false} LinesAreFields(fields: Fields, keys: seq<int>, buf: bytes) returns (k: nat)
    requires Printable(fields) && forall i | 0 <= i < |keys| :: keys[i] in fields
    requires buf <= Print(fields, keys) && (buf == [] || buf[|buf| - 1] == SOH)
    ensures k <= |keys| && buf == Print(fields, keys[..k])
    decreases |keys|
  {
    hide Itoa;
    if buf == [] {
      k := 0;
    } else {
      var line := Itoa(keys[0]) + [EQUALS] + fields[keys[0]];
      AtoiOfItoa(keys[0]);
      CutLine(line, Print(fields, keys[1..]), buf);
      k := LinesAreFields(fields, keys[1..], buf[|line| + 1..]);
      k := k + 1;
      assert keys[..k][1..] == keys[1..][..k - 1];
    }
  }

  // ----- A body that is taken early -----

  /** The lines read so far are taken as soon as one has "10=". */
  lemma EarlyRead(done: bytes, x: bytes, buf: bytes, body: bytes)
    requires buf == done + x + [SOH] && SOH !in x && !HasTen(done) && (done == [] || done[|done| - 1] == SOH)
    requires HasTen(buf) && buf <= body && At(body, EIGHT_EQUALS, 0)
    ensures Drain(buf) == Result([], [Got(Parsed(buf), |buf|)])
  {
    hide Parsed, Drain, LastFrom, FirstFrom, HasTen;
    var n := |buf| - 1;
    var idx := EarlyMarker(done, x, buf);
    assert buf[..n + 1] == buf && buf[0..] == buf;
    assert At(buf, TEN_EQUALS, idx) && At(buf, [SOH], n);
    TenPlace(buf, idx, n);
    assert buf[0..2] == body[0..2] && At(buf, EIGHT_EQUALS, 0);
    DrainIs(buf);
    DrainIs([]);
    EmptyGivesNothing();
    assert buf[|buf|..] == [];
  }

  lemma EmptyGivesNothing()
    ensures ReadFIXMessage([]) == Nothing
  {
  }

  lemma EarlyMarker(done: bytes, x: bytes, buf: bytes) returns (idx: nat)
    requires buf == done + x + [SOH] && SOH !in x && !HasTen(done) && (done == [] || done[|done| - 1] == SOH)
    requires HasTen(buf)
    ensures idx == LastFrom(buf, TEN_EQUALS, |buf|) && FirstFrom(buf, [SOH], idx) == |buf| - 1
  {
    hide FirstFrom;
    idx := LastFrom(buf, TEN_EQUALS, |buf|);
    TenBehind(done, x, buf, idx);
    assert At(buf, [SOH], |buf| - 1);
    forall j | idx <= j < |buf| - 1 ensures !At(buf, [SOH], j) {
      assert buf[j..j + 1][0] == buf[j] == x[j - |done|];
    }
  }

  lemma TenInside(done: bytes, more: bytes, idx: int)
    requires At(done + more, TEN_EQUALS, idx) && idx < |done|
    ensures if idx + 3 <= |done| then HasTen(done) else done[|done| - 1] != SOH
  {
    var buf := done + more;
    if idx + 3 <= |done| {
      assert done[idx..idx + 3] == buf[idx..idx + 3] && At(done, TEN_EQUALS, idx);
      HasTenIs(done);
    } else {
      assert buf[idx..idx + 3][|done| - 1 - idx] == buf[|done| - 1];
    }
  }

  /** The marker is in the last line. */
  lemma TenBehind(done: bytes, x: bytes, buf: bytes, idx: int)
    requires buf == done + x + [SOH] && !HasTen(done) && (done == [] || done[|done| - 1] == SOH)
    requires At(buf, TEN_EQUALS, idx)
    ensures idx >= |done|
  {
    hide HasTen;
    assert buf == done + (x + [SOH]);
    if idx < |done| {
      TenInside(done, x + [SOH], idx);
    }
  }

  lemma SentOrder(m: Sent)
    requires SentOk(m)
    ensures Printable(m.fields) && TagOrder(m.fields, m.order) && m.order != [] && 8 in m.fields
    ensures (forall i | 0 <= i < |m.order| :: m.order[i] in m.fields) && Body(m) == Print(m.fields, m.order)
  {
    hide Print, Printable;
    assert Listed(m.order, 8);
  }

  lemma ReadableIs(m: Sent)
    requires SentOk(m)
    ensures Readable(m) <==> !HasTen(Body(m)) || (!HasTen(Front(m)) && Own(m))
  {
    hide HasTen, Body, Front;
  }

  predicate Own(m: Sent)
    requires SentOk(m)
  {
    10 in m.fields && m.fields[10] == Pad3(Checksum(Body(m)))
  }

  /** The first `k` fields are what is wanted only if they are all, with the checksum among them. */
  lemma ParsedFields(m: Sent, k: nat)
    requires SentOk(m) && k <= |m.order|
    ensures forall i | 0 <= i < k :: m.order[i] in m.fields
    ensures Parsed(Print(m.fields, m.order[..k])) == Wanted(m) <==> k == |m.order| && Own(m)
  {
    hide Print, Printable, Pad3, Checksum, Body, Merge;
    SentOrder(m);
    var keys := m.order[..k];
    var p := Parsed(Print(m.fields, keys));
    ParsePrinted(map[], m.fields, keys, []);
    assert Print(m.fields, keys) + [] == Print(m.fields, keys);
    NoParts(Merge(map[], m.fields, keys));
    MergeIs(map[], m.fields, keys);
    if k < |m.order| {
      NotYet(m.order, k);
      assert m.order[k] in Wanted(m) && m.order[k] !in p;
    } else {
      assert keys == m.order;
      MergeAll(m.fields, m.order);
    }
  }

  lemma NoParts(fields: Fields)
    ensures ParseParts(fields, Split([])) == fields
  {
    assert Split([]) == [[]];
    assert ParseParts(fields, [[]]) == ParseParts(ParsePart(fields, []), [[]][1..]);
  }

  lemma NotYet(keys: seq<int>, k: nat)
    requires SortedTags(keys) && k < |keys|
    ensures !Listed(keys[..k], keys[k])
  {
    forall i | 0 <= i < k ensures keys[..k][i] != keys[k] {
      assert Before(keys[i], keys[k]);
    }
  }

  /** The lines before the one that is taken have no marker; they are all but the last line just if the whole
      body was taken. */
  lemma FrontIs(m: Sent, done: bytes, x: bytes, buf: bytes, k: nat)
    requires SentOk(m) && k <= |m.order| && (forall i | 0 <= i < k :: m.order[i] in m.fields)
    requires buf == done + x + [SOH] && SOH !in x && buf == Print(m.fields, m.order[..k])
    requires !HasTen(done) && HasTen(buf)
    ensures HasTen(Front(m)) <==> k < |m.order|
  {
    hide Print, HasTen, Printable;
    SentOrder(m);
    var n := |m.order| - 1;
    var front := m.order[..n];
    if k <= n {
      assert front == front[..k] + front[k..] && front[..k] == m.order[..k];
      PrintAppend(m.fields, front[..k], front[k..]);
      PrefixTen(Front(m), buf);
    } else {
      assert m.order[..k] == front + [m.order[n]];
      PrintAppend(m.fields, front, [m.order[n]]);
      PrintEndsLine(m.fields, front);
      PrintNothing(m.fields, []);
      OneField(m.fields, m.order[n]);
      LinesBefore(done, x, Front(m), Print(m.fields, [m.order[n]]));
      if HasTen(Front(m)) {
        PrefixTen(done, Front(m));
      }
    }
  }

  lemma OneField(fields: Fields, tag: int)
    requires tag in fields
    ensures Print(fields, [tag]) != []
  {
  }

  lemma LinesBefore(done: bytes, x: bytes, front: bytes, last: bytes)
    requires done + x + [SOH] == front + last && SOH !in x && last != [] && (front == [] || front[|front| - 1] == SOH)
    ensures front <= done
  {
    var whole := done + x + [SOH];
    assert forall j | |done| <= j < |done + x| :: whole[j] == x[j - |done|] != SOH;
    if front != [] {
      assert whole[|front| - 1] == SOH;
    }
    assert front == whole[..|front|];
  }

  /** What an early reading gives is as wanted only if it is the whole body, and that carries its checksum. */
  lemma EarlyIsWanted(m: Sent, done: bytes, x: bytes, buf: bytes)
    requires SentOk(m) && buf == done + x + [SOH] && SOH !in x && buf <= Body(m)
    requires !HasTen(done) && (done == [] || done[|done| - 1] == SOH) && HasTen(buf)
    ensures HasTen(Body(m))
    ensures Parsed(buf) == Wanted(m) <==> Readable(m)
    ensures Readable(m) ==> buf == Body(m)
  {
    hide *;
    PrefixTen(Body(m), buf);
    SentOrder(m);
    var k := LinesAreFields(m.fields, m.order, buf);
    ParsedFields(m, k);
    FrontIs(m, done, x, buf, k);
    assert m.order[..|m.order|] == m.order;
    ReadableIs(m);
  }

  // ----- The rest of a stream -----

  function Trailer(m: Sent): bytes
    requires SentOk(m)
  {
    TEN_EQUALS + Pad3(Checksum(Body(m))) + [SOH]
  }

  /** A checksum field alone is not a message. */
  lemma NoMessage(t: bytes, digits: bytes)
    requires t == TEN_EQUALS + digits + [SOH] && |digits| == 3 && AllDigits(digits)
    ensures ReadFIXMessage(t) == Invalid
  {
    hide LastFrom, FirstFrom, Parsed;
    assert t[0..3] == TEN_EQUALS && At(t, TEN_EQUALS, 0) && At(t, [SOH], 6);
    forall j | 0 <= j < 6 ensures !At(t, [SOH], j) {
      assert t[j..j + 1][0] == t[j];
    }
    forall j ensures !At(t, EIGHT_EQUALS, j) {
      NoEight(t, digits, j);
    }
    var idx := LastFrom(t, TEN_EQUALS, |t|);
    assert idx <= 4;
    var end := FirstFrom(t, [SOH], idx);
    assert end == 6 && t[..end + 1] == t;
  }

  lemma NoEight(t: bytes, digits: bytes, j: int)
    requires t == TEN_EQUALS + digits + [SOH] && |digits| == 3 && AllDigits(digits)
    ensures !At(t, EIGHT_EQUALS, j)
  {
    if 0 <= j && j + 2 <= |t| {
      var two := t[j..j + 2];
      assert two[0] == t[j] && two[1] == t[j + 1];
      assert j < 3 || t[j + 1] != EQUALS;
    }
  }

  /** The trailer is dropped. */
  lemma TrailerDropped(m: Sent)
    requires SentOk(m)
    ensures Drain(Trailer(m)) == Result([], [Dropped])
  {
    hide ReadFIXMessage, Drain, SentOk, Pad3, Checksum;
    Pad3Is(Checksum(Body(m)));
    NoMessage(Trailer(m), Pad3(Checksum(Body(m))));
    DrainIs(Trailer(m));
  }

  /** The read loop behind a body that was taken early: part of the trailer, and the reads still to come. */
  ghost predicate Trailing(m: Sent, part: bytes, chunks: seq<Chunk>, ms: seq<Sent>) {
    && SentOk(m) && (forall i | 0 <= i < |ms| :: SentOk(ms[i])) && (forall i | 0 <= i < |chunks| :: ChunkOk(chunks[i]))
    && part + Cat(chunks) == Trailer(m) + Stream(ms) && |part| < |Trailer(m)| && SOH !in part
  }

  lemma TrailerEnd(m: Sent)
    requires SentOk(m)
    ensures var t := Trailer(m); |t| == 7 && t[6] == SOH && forall j | 0 <= j < 6 :: t[j] != SOH
  {
    Pad3Is(Checksum(Body(m)));
  }

  lemma TrailingPartial(m: Sent, part: bytes, chunks: seq<Chunk>, ms: seq<Sent>)
    requires Trailing(m, part, chunks, ms) && chunks != [] && chunks[0].Partial?
    ensures Trailing(m, part + chunks[0].data, chunks[1..], ms)
  {
    hide SentOk, Trailer, Stream;
    assert ChunkOk(chunks[0]);
    TrailerEnd(m);
    var b := chunks[0].data;
    assert part + (b + Cat(chunks[1..])) == part + b + Cat(chunks[1..]);
    assert [] + (part + b) == part + b;
    StopsBefore([], part + b, Trailer(m) + Stream(ms), 6);
  }

  lemma TrailingLine(m: Sent, part: bytes, chunks: seq<Chunk>, ms: seq<Sent>)
    requires Trailing(m, part, chunks, ms) && chunks != [] && chunks[0].Line?
    ensures part + chunks[0].data == Trailer(m) && Cat(chunks[1..]) == Stream(ms)
  {
    hide SentOk, Trailer, Stream;
    assert ChunkOk(chunks[0]);
    TrailerEnd(m);
    var b := chunks[0].data;
    LineWithout(part, b);
    var buf, x := part + b, part + b[..|b| - 1];
    assert part + (b + Cat(chunks[1..])) == buf + Cat(chunks[1..]);
    assert buf == [] + x + [SOH];
    InFirst([], x, buf, Cat(chunks[1..]), Trailer(m), Stream(ms));
    assert Trailer(m)[|buf| - 1] == SOH;
    SameSplit(buf, Cat(chunks[1..]), Trailer(m), Stream(ms));
  }

  lemma SameSplit(a: bytes, b: bytes, c: bytes, d: bytes)
    requires a + b == c + d && |a| == |c|
    ensures a == c && b == d
  {
    assert a == (a + b)[..|a|] && b == (a + b)[|a|..];
  }

  /** Every message is readable. */
  predicate AllReadable(ms: seq<Sent>)
    requires forall i | 0 <= i < |ms| :: SentOk(ms[i])
  {
    forall i | 0 <= i < |ms| :: Readable(ms[i])
  }

  lemma NextReadable(ms: seq<Sent>)
    requires ms != [] && forall i | 0 <= i < |ms| :: SentOk(ms[i])
    ensures AllReadable(ms) <==> Readable(ms[0]) && AllReadable(ms[1..])
  {
    hide SentOk, Readable;
    if Readable(ms[0]) && AllReadable(ms[1..]) {
      forall i | 0 <= i < |ms| ensures Readable(ms[i]) {
        if i > 0 {
          assert ms[i] == ms[1..][i - 1];
        }
      }
    }
  }

  lemma NextWanted(ms: seq<Sent>, fields: Fields, n: nat, log: seq<Event>)
    requires ms != [] && forall i | 0 <= i < |ms| :: SentOk(ms[i])
    ensures Delivered([Got(fields, n)] + log) == AllWanted(ms)
            <==> fields == Wanted(ms[0]) && Delivered(log) == AllWanted(ms[1..])
  {
    hide SentOk, Wanted;
    var all := [Got(fields, n)] + log;
    assert all[1..] == log;
    assert ([fields] + Delivered(log))[1..] == Delivered(log);
    assert ([Wanted(ms[0])] + AllWanted(ms[1..]))[1..] == AllWanted(ms[1..]);
  }

  lemma DroppedGivesNothing(log: seq<Event>)
    ensures Delivered([Dropped] + log) == Delivered(log) && Delivered([] + log) == Delivered(log)
  {
    assert ([Dropped] + log)[1..] == log && [] + log == log;
  }

  lemma NothingLeft()
    ensures Run([], []) == Result([], []) && Delivered([]) == AllWanted([]) && AllReadable([])
  {
  }

  /** From anywhere midway a session is delivered the messages sent just when all of them are readable. */
  lemma {:induction false} DeliveredFrom(done: bytes, part: bytes, chunks: seq<Chunk>, ms: seq<Sent>)
    requires Midway(done, part, chunks, ms)
    ensures Delivered(Run(done + part, chunks).log) == AllWanted(ms) <==> AllReadable(ms)
    decreases |chunks|, 1
  {
    hide *;
    MidwayIs(done, part, chunks, ms);
    if chunks == [] {
      NothingLeft();
    } else if chunks[0].Partial? {
      PartialStays(done, part, chunks, ms);
      RunPartial(done + part, chunks);
      DeliveredFrom(done, part + chunks[0].data, chunks[1..], ms);
    } else {
      LineStops(done, part, chunks, ms);
      var buf := done + part + chunks[0].data;
      assert forall i | 0 <= i < |chunks[1..]| :: ChunkOk(chunks[1..][i]);
      RunLine(done + part, chunks);
      NextReadable(ms);
      ReadableIs(ms[0]);
      var rest := Run(Drain(buf).buf, chunks[1..]);
      if buf == Sealed(Body(ms[0])) {
        ReadWhole(ms[0]);
        WantedIs(ms[0]);
        MessageDone(buf, chunks[1..], ms);
        DeliveredFrom([], [], chunks[1..], ms[1..]);
        var empty: bytes := [];
        assert empty + empty == [];
        NextWanted(ms, Wanted(ms[0]), |buf|, rest.log);
      } else {
        LineInBody(ms[0], buf);
        if HasTen(buf) {
          DeliveredEarly(done, part, chunks, ms);
        } else {
          ReadInBody(ms[0], buf);
          LineTaken(buf, chunks[1..], ms);
          DroppedGivesNothing(rest.log);
          DeliveredFrom(buf, [], chunks[1..], ms);
        }
      }
    }
  }

  lemma WantedIs(m: Sent)
    requires SentOk(m)
    ensures Wanted(m) == m.fields[10 := Pad3(Checksum(Body(m)))]
  {
    hide SentOk, Body;
  }

  lemma {:induction false} DeliveredEarly(done: bytes, part: bytes, chunks: seq<Chunk>, ms: seq<Sent>)
    requires Midway(done, part, chunks, ms) && chunks != [] && chunks[0].Line? && ms != []
    requires SentOk(ms[0]) && done + part + chunks[0].data <= Body(ms[0]) && HasTen(done + part + chunks[0].data)
    ensures Delivered(Run(done + part, chunks).log) == AllWanted(ms) <==> AllReadable(ms)
    decreases |chunks|, 0
  {
    hide *;
    MidwayIs(done, part, chunks, ms);
    LineGiven(done, part, chunks, ms);
    var b := chunks[0].data;
    var buf, x := done + part + b, part + b[..|b| - 1];
    LineWithout(part, b);
    assert buf == done + x + [SOH];
    RunLine(done + part, chunks);
    NextReadable(ms);
    SentIs(ms[0]);
    EarlyRead(done, x, buf, Body(ms[0]));
    EarlyIsWanted(ms[0], done, x, buf);
    var rest := Run([], chunks[1..]);
    NextWanted(ms, Parsed(buf), |buf|, rest.log);
    if Readable(ms[0]) {
      StartsTrailing(buf, chunks, ms);
      DeliveredBehind(ms[0], [], chunks[1..], ms[1..]);
    }
  }

  lemma StartsTrailing(buf: bytes, chunks: seq<Chunk>, ms: seq<Sent>)
    requires ms != [] && chunks != [] && (forall i | 0 <= i < |ms| :: SentOk(ms[i]))
    requires forall i | 0 <= i < |chunks| :: ChunkOk(chunks[i])
    requires buf == Body(ms[0]) && buf + Cat(chunks[1..]) == Sealed(Body(ms[0])) + Stream(ms[1..])
    ensures Trailing(ms[0], [], chunks[1..], ms[1..])
  {
    hide SentOk, Stream, Body, Pad3;
    TrailerEnd(ms[0]);
    assert Sealed(buf) == buf + Trailer(ms[0]);
    assert buf + Trailer(ms[0]) + Stream(ms[1..]) == buf + (Trailer(ms[0]) + Stream(ms[1..]));
    SameSplit(buf, Cat(chunks[1..]), buf, Trailer(ms[0]) + Stream(ms[1..]));
    assert [] + Cat(chunks[1..]) == Cat(chunks[1..]);
  }

  lemma {:induction false} DeliveredBehind(m: Sent, part: bytes, chunks: seq<Chunk>, ms: seq<Sent>)
    requires Trailing(m, part, chunks, ms)
    ensures Delivered(Run(part, chunks).log) == AllWanted(ms) <==> AllReadable(ms)
    decreases |chunks|, 1
  {
    hide *;
    TrailingIs(m, part, chunks, ms);
    if chunks[0].Partial? {
      TrailingPartial(m, part, chunks, ms);
      RunPartial(part, chunks);
      DeliveredBehind(m, part + chunks[0].data, chunks[1..], ms);
    } else {
      TrailingLine(m, part, chunks, ms);
      TrailerDropped(m);
      RunLine(part, chunks);
      var empty: bytes := [];
      StartsMidway(chunks[1..], ms);
      DeliveredFrom([], [], chunks[1..], ms);
      assert empty + empty == [];
      DroppedGivesNothing(Run([], chunks[1..]).log);
    }
  }

  lemma TrailingIs(m: Sent, part: bytes, chunks: seq<Chunk>, ms: seq<Sent>)
    requires Trailing(m, part, chunks, ms)
    ensures chunks != [] && SentOk(m) && (forall i | 0 <= i < |ms| :: SentOk(ms[i]))
    ensures forall i | 0 <= i < |chunks| :: ChunkOk(chunks[i])
  {
    assert |part + Cat(chunks)| == |Trailer(m)| + |Stream(ms)|;
  }

  /** However the reads split the stream, a session is delivered exactly the messages that were built, once each
      and in order, if and only if each of them has no "10=" in its body, or has it in the last line only and
      carries its own checksum as field 10. */
  lemma DeliveryExactWhen(ms: seq<Sent>, chunks: seq<Chunk>)
    requires (forall i | 0 <= i < |ms| :: SentOk(ms[i])) && (forall i | 0 <= i < |chunks| :: ChunkOk(chunks[i]))
    requires Cat(chunks) == Stream(ms)
    ensures Delivered(Run([], chunks).log) == AllWanted(ms) <==> AllReadable(ms)
  {
    hide *;
    StartsMidway(chunks, ms);
    DeliveredFrom([], [], chunks, ms);
    var empty: bytes := [];
    assert empty + empty == [];
  }
}
