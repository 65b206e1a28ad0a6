/** FIX messages as tag=value fields: printing in the gateway's field order, parsing, the checksum and the
    extraction of one message from a buffer. */
module FixMessages {
  import opened Arithmetic
  import opened Collections

  type byte = x: int | 0 <= x < 256
  type bytes = seq<byte>

  datatype Option<T> = None | Some(value: T)

  /** The bytes of an ASCII text. */
  function Ascii(s: string): (r: bytes)
    requires forall i | 0 <= i < |s| :: s[i] < 128 as char
    ensures |r| == |s| && forall i | 0 <= i < |s| :: r[i] == s[i] as int
  {
    seq(|s|, i requires 0 <= i < |s| => s[i] as int)
  }

  const SOH: byte := 1
  const EQUALS: byte := 61
  const MINUS: byte := 45
  const PLUS: byte := 43
  const ZERO: byte := 48

  // ----- Numbers -----

  function Digits(n: nat): bytes {
    if n < 10 then [ZERO + n] else Digits(n / 10) + [ZERO + n % 10]
  }

  /** A tag in decimal. */
  function Itoa(n: int): bytes {
    if n < 0 then [MINUS] + Digits(-n) else Digits(n)
  }

  predicate AllDigits(s: bytes) {
    forall i | 0 <= i < |s| :: ZERO <= s[i] <= ZERO + 9
  }

  function Number(s: bytes): int {
    if s == [] then 0 else 10 * Number(s[..|s| - 1]) + (s[|s| - 1] - ZERO)
  }

  /** An optional sign and one or more digits, within 64 bits. */
  function Atoi(s: bytes): Option<int> {
    if s == [] then None
    else
      var digits := if s[0] == MINUS || s[0] == PLUS then s[1..] else s;
      var n := if s[0] == MINUS then -Number(digits) else Number(digits);
      if digits != [] && AllDigits(digits) && Int64(n) then Some(n) else None
  }

  lemma {:induction false} DigitsAre(n: nat)
    ensures Digits(n) != [] && AllDigits(Digits(n)) && Number(Digits(n)) == n
  {
    if n < 10 {
      assert [ZERO + n][..0] == [];
    } else {
      DigitsAre(n / 10);
      assert Digits(n)[..|Digits(n)| - 1] == Digits(n / 10);
    }
  }

  /** Tags survive printing and parsing. */
  lemma AtoiOfItoa(n: int)
    requires Int64(n)
    ensures Atoi(Itoa(n)) == Some(n) && SOH !in Itoa(n) && EQUALS !in Itoa(n) && Itoa(n) != []
  {
    if n < 0 {
      DigitsAre(-n);
      assert Itoa(n)[1..] == Digits(-n);
    } else {
      DigitsAre(n);
    }
  }

  /** Digits, with or without a sign, are the number they say if it fits; nothing else is a number. */
  lemma AtoiIs(s: bytes)
    ensures Atoi(s).Some? ==>
              || (AllDigits(s) && s != [])
              || (|s| > 1 && (s[0] == Ascii("-")[0] || s[0] == Ascii("+")[0]) && AllDigits(s[1..]))
    ensures AllDigits(s) && s != [] ==>
              && Atoi(s) == Fitting(Number(s))
              && Atoi(Ascii("+") + s) == Fitting(Number(s))
              && Atoi(Ascii("-") + s) == Fitting(-Number(s))
  {
    hide Number, AllDigits;
    assert Ascii("+") == [PLUS] && Ascii("-") == [MINUS];
    assert ([PLUS] + s)[1..] == s && ([MINUS] + s)[1..] == s;
    if AllDigits(s) && s != [] {
      DigitFirst(s);
    }
  }

  function Fitting(n: int): Option<int> {
    if Int64(n) then Some(n) else None
  }

  lemma DigitFirst(s: bytes)
    requires AllDigits(s) && s != []
    ensures s[0] != MINUS && s[0] != PLUS
  {
  }

  // ----- Field order -----

  /** The position of the header tags; all other tags come after them. */
  function Rank(tag: int): (r: nat)
    ensures r <= 7
  {
    if tag == 8 then 0 else if tag == 9 then 1 else if tag == 35 then 2 else if tag == 49 then 3
    else if tag == 56 then 4 else if tag == 34 then 5 else if tag == 52 then 6 else 7
  }

  predicate Ranked(tag: int) {
    Rank(tag) < 7
  }

  /** Header tags in their fixed order, then the rest by number. */
  predicate Before(a: int, b: int) {
    Rank(a) < Rank(b) || (Rank(a) == Rank(b) && a < b)
  }

  predicate SortedTags(s: seq<int>) {
    forall i, j | 0 <= i < j < |s| :: Before(s[i], s[j])
  }

  predicate Distinct(s: seq<int>) {
    forall i, j | 0 <= i < j < |s| :: s[i] != s[j]
  }

  predicate Listed(s: seq<int>, tag: int) {
    exists i :: 0 <= i < |s| && s[i] == tag
  }

  predicate Within(s: seq<int>, t: seq<int>) {
    forall i | 0 <= i < |s| :: Listed(t, s[i])
  }

  const HEADER: seq<int> := [8, 9, 35, 49, 56, 34, 52]

  /** The tag at `i` is one of the first `n` header tags. */
  ghost predicate HeaderUpTo(tag: int, n: int) {
    exists p :: 0 <= p < n && p < |HEADER| && HEADER[p] == tag
  }

  /** In a sorted list only earlier header tags come before a header tag, and only header tags and smaller
      ones before any other. */
  lemma HeaderComesFirst(keys: seq<int>, i: nat, j: nat)
    requires SortedTags(keys) && i < j < |keys|
    ensures forall q | 0 <= q < |HEADER| && keys[j] == HEADER[q] :: HeaderUpTo(keys[i], q)
    ensures !HeaderUpTo(keys[j], |HEADER|) ==> HeaderUpTo(keys[i], |HEADER|) || keys[i] < keys[j]
  {
    assert Before(keys[i], keys[j]);
    var p, q := Rank(keys[i]), Rank(keys[j]);
    assert (p < 7 ==> HEADER[p] == keys[i]) && (q < 7 ==> HEADER[q] == keys[j]);
  }

  lemma TailsWithin(s: seq<int>, t: seq<int>)
    requires SortedTags(s) && Within(s, t) && s != [] && t != [] && s[0] == t[0]
    ensures Within(s[1..], t[1..])
  {
    forall i | 0 <= i < |s| - 1 ensures Listed(t[1..], s[1..][i]) {
      assert Listed(t, s[i + 1]) && Before(s[0], s[i + 1]);
      var j :| 0 <= j < |t| && t[j] == s[i + 1];
      assert t[1..][j - 1] == s[1..][i];
    }
  }

  /** Sorting leaves nothing to choose: the order of the fields depends on the tags only. */
  lemma {:induction false} SortedIsUnique(s: seq<int>, t: seq<int>)
    requires SortedTags(s) && SortedTags(t) && Within(s, t) && Within(t, s)
    ensures s == t
    decreases |s|
  {
    if s != [] {
      assert Listed(t, s[0]);
      assert Listed(s, t[0]);
      var j, i :| 0 <= j < |t| && t[j] == s[0] && 0 <= i < |s| && s[i] == t[0];
      assert s[0] == t[0];
      TailsWithin(s, t);
      TailsWithin(t, s);
      SortedIsUnique(s[1..], t[1..]);
    } else {
      assert t != [] ==> Listed(s, t[0]);
    }
  }

  /** The swap rule of the source: whether the later of two keys belongs before the earlier. */
  predicate Swaps(i: int, j: int) {
    if Ranked(i) && Ranked(j) then Rank(i) > Rank(j)
    else if Ranked(i) then false
    else if Ranked(j) then true
    else i > j
  }

  lemma SwapsIs(i: int, j: int)
    requires i != j
    ensures Swaps(i, j) <==> Before(j, i)
    ensures Before(i, j) <==> !Before(j, i)
  {
  }

  /** The first `i` tags are in place. */
  predicate FrontSorted(s: seq<int>, i: int) {
    forall k, l | 0 <= k < i && k < l < |s| :: Before(s[k], s[l])
  }

  predicate LeastUpTo(s: seq<int>, i: int, j: int) {
    forall l | i < l < j && 0 <= i && l < |s| :: Before(s[i], s[l])
  }

  function Compared(s: seq<int>, i: int, j: int): seq<int>
    requires 0 <= i < j < |s|
  {
    if Swaps(s[i], s[j]) then s[i := s[j]][j := s[i]] else s
  }

  lemma CompareStep(s: seq<int>, i: int, j: int)
    requires 0 <= i < j < |s| && Distinct(s) && FrontSorted(s, i) && LeastUpTo(s, i, j)
    ensures var t := Compared(s, i, j);
            multiset(t) == multiset(s) && Distinct(t) && FrontSorted(t, i) && LeastUpTo(t, i, j + 1)
  {
    hide Before, Swaps;
    SwapsIs(s[i], s[j]);
    var t := Compared(s, i, j);
    forall k, l | 0 <= k < i && k < l < |t| ensures Before(t[k], t[l]) {
      assert Before(s[k], s[l]) && Before(s[k], s[i]) && Before(s[k], s[j]);
    }
    forall l | i < l < j + 1 ensures Before(t[i], t[l]) {
      if l < j && Swaps(s[i], s[j]) {
        BeforeChain(s[j], s[i], s[l]);
      }
    }
  }

  lemma BeforeChain(a: int, b: int, c: int)
    requires Before(a, b) && Before(b, c)
    ensures Before(a, c)
  {
  }

  /** Exchange sort in place, as the source does it. */
  method SortTags(a: array<int>)
    requires Distinct(a[..])
    modifies a
    ensures SortedTags(a[..]) && multiset(a[..]) == multiset(old(a[..]))
  {
    hide Before, Swaps, Distinct, FrontSorted, LeastUpTo;
    ghost var tags := multiset(a[..]);
    Sorting(a[..], 0);
    for i := 0 to a.Length
      invariant multiset(a[..]) == tags && Distinct(a[..]) && FrontSorted(a[..], i)
    {
      Sorting(a[..], i);
      for j := i + 1 to a.Length
        invariant multiset(a[..]) == tags && Distinct(a[..]) && FrontSorted(a[..], i) && LeastUpTo(a[..], i, j)
      {
        ghost var s := a[..];
        CompareStep(s, i, j);
        if Swaps(a[i], a[j]) {
          a[i], a[j] := a[j], a[i];
        }
        assert a[..] == Compared(s, i, j);
      }
      Sorted(a[..], i);
    }
    Sorting(a[..], a.Length);
  }

  lemma Sorting(s: seq<int>, i: int)
    ensures FrontSorted(s, 0) && LeastUpTo(s, i, i + 1) && (FrontSorted(s, |s|) ==> SortedTags(s))
  {
  }

  lemma Sorted(s: seq<int>, i: int)
    requires 0 <= i < |s| && FrontSorted(s, i) && LeastUpTo(s, i, |s|)
    ensures FrontSorted(s, i + 1)
  {
  }

  // ----- Printing -----

  type Fields = map<int, bytes>

  /** The tags of a message in the order they are printed. */
  predicate TagOrder(fields: Fields, keys: seq<int>) {
    SortedTags(keys) && (forall i | 0 <= i < |keys| :: keys[i] in fields) && forall k | k in fields :: Listed(keys, k)
  }

  lemma TagOrderIsUnique(fields: Fields, s: seq<int>, t: seq<int>)
    requires TagOrder(fields, s) && TagOrder(fields, t)
    ensures s == t
  {
    SortedIsUnique(s, t);
  }

  function Field(tag: int, value: bytes): bytes {
    Itoa(tag) + [EQUALS] + value + [SOH]
  }

  function Print(fields: Fields, keys: seq<int>): bytes
    requires forall i | 0 <= i < |keys| :: keys[i] in fields
  {
    if keys == [] then [] else Field(keys[0], fields[keys[0]]) + Print(fields, keys[1..])
  }

  /** Some element of a set, as ranging over a map gives its keys in any order. */
  method Take<T(==)>(s: set<T>) returns (x: T)
    requires s != {}
    ensures x in s
  {
    x :| x in s;
  }

  lemma SameElements(s: seq<int>, t: seq<int>)
    requires multiset(s) == multiset(t)
    ensures Within(s, t) && Within(t, s)
  {
    forall i | 0 <= i < |s| ensures Listed(t, s[i]) {
      assert s[i] in multiset(t);
    }
    forall i | 0 <= i < |t| ensures Listed(s, t[i]) {
      assert t[i] in multiset(s);
    }
  }

  method SortedKeys(fields: Fields) returns (keys: seq<int>)
    ensures TagOrder(fields, keys)
  {
    var found, rest := [], fields.Keys;
    while rest != {}
      invariant Distinct(found) && rest <= fields.Keys
      invariant forall i | 0 <= i < |found| :: found[i] in fields && found[i] !in rest
      invariant forall k | k in fields :: k in rest || Listed(found, k)
      decreases |rest|
    {
      var k := Take(rest);
      ghost var before, left := found, rest;
      found, rest := found + [k], rest - {k};
      forall x | x in fields ensures x in rest || Listed(found, x) {
        if x == k {
          assert found[|before|] == x;
        } else if Listed(before, x) {
          var i :| 0 <= i < |before| && before[i] == x;
          assert found[i] == x;
        }
      }
    }
    var a := new int[|found|](i requires 0 <= i < |found| => found[i]);
    assert a[..] == found;
    SortTags(a);
    keys := a[..];
    SameElements(found, keys);
  }

  // ----- Parsing -----

  function IndexOf(s: bytes, b: byte): (i: nat)
    ensures i <= |s| && b !in s[..i] && (i < |s| ==> s[i] == b)
  {
    if s == [] || s[0] == b then 0 else 1 + IndexOf(s[1..], b)
  }

  function Split(raw: bytes): seq<bytes>
    decreases |raw|
  {
    var i := IndexOf(raw, SOH);
    if i == |raw| then [raw] else [raw[..i]] + Split(raw[i + 1..])
  }

  function Join(parts: seq<bytes>): bytes
    requires parts != []
  {
    if |parts| == 1 then parts[0] else parts[0] + [SOH] + Join(parts[1..])
  }

  /** The parts are what stands between the separators. */
  lemma {:induction false} SplitIs(raw: bytes)
    ensures Split(raw) != [] && Join(Split(raw)) == raw && forall k | 0 <= k < |Split(raw)| :: SOH !in Split(raw)[k]
    decreases |raw|
  {
    hide Join, IndexOf;
    var i := IndexOf(raw, SOH);
    if i < |raw| {
      var rest := Split(raw[i + 1..]);
      SplitIs(raw[i + 1..]);
      JoinMore(raw[..i], rest);
      assert raw == raw[..i] + [SOH] + raw[i + 1..];
    } else {
      assert raw[..i] == raw;
      JoinOne(raw);
    }
  }

  lemma JoinOne(x: bytes)
    ensures Join([x]) == x
  {
  }

  lemma JoinMore(x: bytes, rest: seq<bytes>)
    requires rest != []
    ensures Join([x] + rest) == x + [SOH] + Join(rest)
  {
    assert ([x] + rest)[1..] == rest;
  }

  /** One part of the input adds its field, or nothing if it is not one. */
  function ParsePart(fields: Fields, part: bytes): Fields {
    var i := IndexOf(part, EQUALS);
    if i == |part| || Atoi(part[..i]) == None then fields else fields[Atoi(part[..i]).value := part[i + 1..]]
  }

  function ParseParts(fields: Fields, parts: seq<bytes>): Fields
    decreases |parts|
  {
    if parts == [] then fields else ParseParts(ParsePart(fields, parts[0]), parts[1..])
  }

  function Parsed(raw: bytes): Fields {
    ParseParts(map[], Split(raw))
  }

  method ParseFIXMessage(raw: bytes) returns (fields: Fields)
    ensures fields == Parsed(raw)
  {
    fields := map[];
    var parts := Split(raw);
    for i := 0 to |parts|
      invariant ParseParts(fields, parts[i..]) == Parsed(raw)
    {
      var part := parts[i];
      var idx := IndexOf(part, EQUALS);
      assert parts[i..][1..] == parts[i + 1..];
      if |part| == 0 || idx == |part| {
        continue;
      }
      var tag := Atoi(part[..idx]);
      if tag.None? {
        continue;
      }
      fields := fields[tag.value := part[idx + 1..]];
    }
  }

  lemma {:induction false} IndexOfIs(s: bytes, b: byte, t: bytes)
    requires b !in s
    ensures IndexOf(s + [b] + t, b) == |s|
  {
    if s == [] {
      assert [] + [b] + t == [b] + t;
    } else {
      assert (s + [b] + t)[1..] == s[1..] + [b] + t;
      IndexOfIs(s[1..], b, t);
    }
  }

  lemma SplitFirst(x: bytes, rest: bytes)
    requires SOH !in x
    ensures Split(x + [SOH] + rest) == [x] + Split(rest)
  {
    IndexOfIs(x, SOH, rest);
    assert (x + [SOH] + rest)[|x| + 1..] == rest && (x + [SOH] + rest)[..|x|] == x;
  }

  lemma ParsePrintedPart(fields: Fields, tag: int, value: bytes)
    requires Int64(tag)
    ensures ParsePart(fields, Itoa(tag) + [EQUALS] + value) == fields[tag := value]
  {
    AtoiOfItoa(tag);
    IndexOfIs(Itoa(tag), EQUALS, value);
    assert (Itoa(tag) + [EQUALS] + value)[..|Itoa(tag)|] == Itoa(tag);
    assert (Itoa(tag) + [EQUALS] + value)[|Itoa(tag)| + 1..] == value;
  }

  /** A part with a number before its first equals sign sets that field to all that follows; any other part
      is skipped. */
  lemma ParsePartIs(fields: Fields, tag: bytes, value: bytes)
    requires EQUALS !in tag
    ensures ParsePart(fields, tag) == fields
    ensures ParsePart(fields, tag + Ascii("=") + value)
            == if Atoi(tag).Some? then fields[Atoi(tag).value := value] else fields
  {
    assert Ascii("=") == [EQUALS];
    var part := tag + [EQUALS] + value;
    IndexOfIs(tag, EQUALS, value);
    assert part[..|tag|] == tag && part[|tag| + 1..] == value;
  }

  /** A message that can be told apart once printed. */
  predicate Printable(fields: Fields) {
    forall k | k in fields :: Int64(k) && SOH !in fields[k]
  }

  function Merge(m: Fields, fields: Fields, keys: seq<int>): Fields
    requires forall i | 0 <= i < |keys| :: keys[i] in fields
    decreases |keys|
  {
    if keys == [] then m else Merge(m[keys[0] := fields[keys[0]]], fields, keys[1..])
  }

  lemma {:induction false} MergeIs(m: Fields, fields: Fields, keys: seq<int>)
    requires forall i | 0 <= i < |keys| :: keys[i] in fields
    ensures forall k :: k in Merge(m, fields, keys) <==> k in m || Listed(keys, k)
    ensures forall k | k in Merge(m, fields, keys) ::
              Merge(m, fields, keys)[k] == if Listed(keys, k) then fields[k] else m[k]
    decreases |keys|
  {
    if keys != [] {
      MergeIs(m[keys[0] := fields[keys[0]]], fields, keys[1..]);
      forall k ensures Listed(keys, k) <==> k == keys[0] || Listed(keys[1..], k) {
        if Listed(keys[1..], k) {
          var i :| 0 <= i < |keys[1..]| && keys[1..][i] == k;
          assert keys[i + 1] == k;
        }
        if Listed(keys, k) && k != keys[0] {
          var i :| 0 <= i < |keys| && keys[i] == k;
          assert keys[1..][i - 1] == k;
        }
      }
    }
  }

  /** Printed fields are parsed back one by one, whatever follows them. */
  lemma {:induction false} ParsePrinted(m: Fields, fields: Fields, keys: seq<int>, tail: bytes)
    requires Printable(fields) && forall i | 0 <= i < |keys| :: keys[i] in fields
    ensures ParseParts(m, Split(Print(fields, keys) + tail)) == ParseParts(Merge(m, fields, keys), Split(tail))
    decreases |keys|
  {
    if keys == [] {
      assert [] + tail == tail;
    } else {
      var k := keys[0];
      AtoiOfItoa(k);
      var part := Itoa(k) + [EQUALS] + fields[k];
      var rest := Print(fields, keys[1..]) + tail;
      assert Print(fields, keys) + tail == part + [SOH] + rest;
      SplitFirst(part, rest);
      ParsePrintedPart(m, k, fields[k]);
      assert ([part] + Split(rest))[1..] == Split(rest);
      ParsePrinted(m[k := fields[k]], fields, keys[1..], tail);
    }
  }

  lemma MergeAll(fields: Fields, keys: seq<int>)
    requires TagOrder(fields, keys)
    ensures Merge(map[], fields, keys) == fields
  {
    MergeIs(map[], fields, keys);
    var r := Merge(map[], fields, keys);
    forall k | k in r ensures k in fields && r[k] == fields[k] {
      var i :| 0 <= i < |keys| && keys[i] == k;
    }
    assert forall k | k in fields :: k in r;
    assert r.Keys == fields.Keys;
    SameMap(r, fields);
  }

  /** Parsing what was printed gives back exactly the fields. */
  lemma ParseOfPrint(fields: Fields, keys: seq<int>)
    requires Printable(fields) && TagOrder(fields, keys)
    ensures Parsed(Print(fields, keys)) == fields
  {
    ParsePrinted(map[], fields, keys, []);
    MergeAll(fields, keys);
    assert Print(fields, keys) + [] == Print(fields, keys);
    assert Split([]) == [[]];
    assert ParseParts(fields, [[]]) == fields;
  }

  // ----- Building -----

  function SumOf(data: bytes): (r: nat) {
    if data == [] then 0 else SumOf(data[..|data| - 1]) + data[|data| - 1]
  }

  /** The sum of the bytes modulo 256, as the CheckSum Calculation appendix of FIX 4.4 Volume 1 has it. */
  function Checksum(data: bytes): (r: nat)
    ensures r < 256
  {
    SumOf(data) % 256
  }

  lemma {:induction false} SumAdds(a: bytes, b: bytes)
    ensures SumOf(a + b) == SumOf(a) + SumOf(b)
    decreases |b|
  {
    if b == [] {
      assert a + b == a;
    } else {
      assert (a + b)[..|a + b| - 1] == a + b[..|b| - 1];
      SumAdds(a, b[..|b| - 1]);
    }
  }

  lemma ModAdds(x: nat, y: nat)
    ensures (x + y) % 256 == (x % 256 + y % 256) % 256
  {
    var p, q := x / 256, y / 256;
    assert x + y == 256 * (p + q) + (x % 256 + y % 256);
  }

  /** The checksum of nothing is zero, of a byte that byte, and of a text in two parts the sum of theirs
      modulo 256. */
  lemma ChecksumLaws(a: bytes, b: bytes)
    ensures Checksum([]) == 0
    ensures |a| == 1 ==> Checksum(a) == a[0]
    ensures Checksum(a + b) == (Checksum(a) + Checksum(b)) % 256
  {
    SumAdds(a, b);
    ModAdds(SumOf(a), SumOf(b));
    if |a| == 1 {
      assert SumOf(a) == SumOf(a[..0]) + a[0];
    }
  }

  method CalcChecksum(data: bytes) returns (r: int)
    ensures r == Checksum(data)
  {
    var sum: int := 0;
    for i := 0 to |data|
      invariant sum == SumOf(data[..i])
    {
      assert data[..i + 1][..i] == data[..i];
      sum := sum + data[i];
    }
    assert data[..|data|] == data;
    return sum % 256;
  }

  /** Three digits. */
  function Pad3(n: int): bytes
    requires 0 <= n < 256
  {
    [ZERO + n / 100, ZERO + n / 10 % 10, ZERO + n % 10]
  }

  lemma Pad3Is(n: int)
    requires 0 <= n < 256
    ensures |Pad3(n)| == 3 && AllDigits(Pad3(n)) && Number(Pad3(n)) == n && Atoi(Pad3(n)) == Some(n)
  {
    var s := Pad3(n);
    assert s[..2] == [s[0], s[1]] && [s[0], s[1]][..1] == [s[0]] && [s[0]][..0] == [];
    assert Number([s[0]]) == s[0] - ZERO && Number([s[0], s[1]]) == 10 * Number([s[0]]) + (s[1] - ZERO);
  }

  const BEGIN_STRING: bytes := Ascii("FIX.4.4")
  const TEN_EQUALS: bytes := [49, 48, 61]
  const EIGHT_EQUALS: bytes := [56, 61]

  /** A body with its checksum field. */
  function Sealed(body: bytes): bytes {
    body + TEN_EQUALS + Pad3(Checksum(body)) + [SOH]
  }

  /** `out` has every field once, in tag order. */
  ghost predicate IsPrinted(fields: Fields, out: bytes) {
    exists order :: TagOrder(fields, order) && out == Print(fields, order)
  }

  ghost predicate IsBuilt(fields: Fields, msg: bytes) {
    exists body :: IsPrinted(fields, body) && msg == Sealed(body)
  }

  /** The printed form depends on the fields only, and tells messages apart. */
  lemma PrintedOnce(a: Fields, s: bytes, b: Fields, t: bytes)
    requires Printable(a) && Printable(b) && IsPrinted(a, s) && IsPrinted(b, t)
    ensures s == t <==> a == b
  {
    var k :| TagOrder(a, k) && s == Print(a, k);
    var l :| TagOrder(b, l) && t == Print(b, l);
    if a == b {
      TagOrderIsUnique(a, k, l);
    }
    ParseOfPrint(a, k);
    ParseOfPrint(b, l);
  }

  lemma PrintNext(fields: Fields, keys: seq<int>, i: nat)
    requires i < |keys| && forall k | 0 <= k < |keys| :: keys[k] in fields
    ensures Print(fields, keys[i..])
              == Itoa(keys[i]) + [EQUALS] + fields[keys[i]] + [SOH] + Print(fields, keys[i + 1..])
  {
    assert keys[i..][1..] == keys[i + 1..];
  }

  lemma PrintNothing(fields: Fields, keys: seq<int>)
    requires forall k | 0 <= k < |keys| :: keys[k] in fields
    ensures keys[|keys|..] == [] && Print(fields, []) == []
  {
  }

  class FIXMessage {
    var fields: Fields

    constructor ()
      ensures fields == map[]
    {
      fields := map[];
    }

    method Set(tag: int, value: bytes)
      modifies this
      ensures fields == old(fields)[tag := value]
    {
      fields := fields[tag := value];
    }

    method Serialize() returns (out: bytes)
      ensures IsPrinted(fields, out)
    {
      hide Itoa, Print, Field, TagOrder;
      var keys := SortedKeys(fields);
      out := [];
      assert [] + Print(fields, keys) == Print(fields, keys) && keys[0..] == keys;
      for i := 0 to |keys|
        invariant out + Print(fields, keys[i..]) == Print(fields, keys)
      {
        PrintNext(fields, keys, i);
        var field := Itoa(keys[i]) + [EQUALS] + fields[keys[i]] + [SOH];
        Regroup(out, field, Print(fields, keys[i + 1..]));
        out := out + field;
      }
      PrintNothing(fields, keys);
    }

    method Build(targetCompID: bytes, now: bytes) returns (msg: bytes)
      modifies this
      ensures fields == old(fields)[8 := Ascii("FIX.4.4")][49 := targetCompID][52 := now]
      ensures IsBuilt(fields, msg)
    {
      Set(8, BEGIN_STRING);
      Set(49, targetCompID);
      Set(52, now);
      var body := Serialize();
      var checksum := CalcChecksum(body);
      msg := body + TEN_EQUALS + Pad3(checksum) + [SOH];
    }
  }

  // ----- Reading one message -----

  predicate At(data: bytes, pat: bytes, i: int) {
    0 <= i && i + |pat| <= |data| && data[i..i + |pat|] == pat
  }

  /** The first occurrence from `i` on, or -1. */
  function FirstFrom(data: bytes, pat: bytes, i: nat): (r: int)
    requires i <= |data|
    ensures r == -1 || (At(data, pat, r) && r >= i)
    ensures forall j | i <= j && At(data, pat, j) :: 0 <= r <= j
    decreases |data| - i
  {
    if At(data, pat, i) then i else if i == |data| then -1 else FirstFrom(data, pat, i + 1)
  }

  /** The last occurrence from `i` down, or -1. */
  function LastFrom(data: bytes, pat: bytes, i: int): (r: int)
    requires -1 <= i
    ensures r == -1 || At(data, pat, r)
    ensures forall j | j <= i && At(data, pat, j) :: j <= r
    decreases i
  {
    if i == -1 || At(data, pat, i) then i else LastFrom(data, pat, i - 1)
  }

  datatype Reading = Nothing | Invalid | Message(fields: Fields, consumed: nat)

  /** What a buffer gives: the last checksum field in it ends a message, which starts at the first
      BeginString. */
  function ReadFIXMessage(data: bytes): (r: Reading)
    ensures r.Message? ==> 0 < r.consumed <= |data|
  {
    var idx := LastFrom(data, TEN_EQUALS, |data|);
    if idx < 0 then Nothing
    else
      var end := FirstFrom(data, [SOH], idx);
      if end < 0 then Nothing
      else
        var raw := data[..end + 1];
        var begin := FirstFrom(raw, EIGHT_EQUALS, 0);
        if begin < 0 then Invalid else Message(Parsed(raw[begin..]), end + 1)
  }

  ghost predicate Occurs(data: bytes, pat: bytes) {
    exists j :: At(data, pat, j)
  }

  ghost predicate FirstAt(data: bytes, pat: bytes, i: int) {
    At(data, pat, i) && forall j | j < i :: !At(data, pat, j)
  }

  ghost predicate LastAt(data: bytes, pat: bytes, i: int) {
    At(data, pat, i) && forall j | i < j :: !At(data, pat, j)
  }

  /** Reading in plain terms: the last "10=" of the buffer, the first separator after it, and between the
      buffer's first "8=" and that separator a message. */
  lemma ReadIs(data: bytes, ten: nat, end: nat, begin: nat)
    requires LastAt(data, Ascii("10="), ten)
    requires ten <= end <= |data| && (end < |data| ==> data[end] == 1) && SOH !in data[ten..end]
    ensures end == |data| ==> ReadFIXMessage(data) == Nothing
    ensures end < |data| && !Occurs(data[..end + 1], Ascii("8=")) ==> ReadFIXMessage(data) == Invalid
    ensures end < |data| && FirstAt(data[..end + 1], Ascii("8="), begin) ==>
              ReadFIXMessage(data) == Message(Parsed(data[begin..end + 1]), end + 1)
  {
    hide FirstFrom, LastFrom, Parsed, At;
    assert TEN_EQUALS == Ascii("10=") && EIGHT_EQUALS == Ascii("8=");
    assert ten <= |data| by {
      AtIs(data, Ascii("10="), ten);
    }
    assert LastFrom(data, TEN_EQUALS, |data|) == ten by {
      AtIs(data, TEN_EQUALS, LastFrom(data, TEN_EQUALS, |data|));
    }
    FirstSeparator(data, ten, end);
    if end < |data| {
      AtIs(data[..end + 1], EIGHT_EQUALS, begin);
      assert At(data[..end + 1], EIGHT_EQUALS, begin) ==> data[..end + 1][begin..] == data[begin..end + 1];
    }
  }

  lemma AtIs(data: bytes, pat: bytes, i: int)
    ensures At(data, pat, i) ==> 0 <= i <= |data|
  {
  }

  lemma FirstSeparator(data: bytes, from: nat, end: nat)
    requires from <= end <= |data| && (end < |data| ==> data[end] == SOH) && SOH !in data[from..end]
    ensures FirstFrom(data, [SOH], from) == if end < |data| then end else -1
  {
    hide FirstFrom, At;
    forall i ensures At(data, [SOH], i) <==> 0 <= i < |data| && data[i] == SOH {
      SeparatorIs(data, i);
    }
    assert forall i | from <= i < end :: data[i] == data[from..end][i - from];
  }

  lemma SeparatorIs(data: bytes, i: int)
    ensures At(data, [SOH], i) <==> 0 <= i < |data| && data[i] == SOH
  {
    if 0 <= i < |data| {
      assert data[i..i + 1] == [data[i]];
    }
  }

  lemma PrintStartsWithEight(fields: Fields, order: seq<int>)
    requires TagOrder(fields, order) && 8 in fields
    ensures At(Print(fields, order), EIGHT_EQUALS, 0)
  {
    hide Print, Itoa;
    assert Listed(order, 8);
    var i :| 0 <= i < |order| && order[i] == 8;
    assert i > 0 ==> Before(order[0], order[i]);
    assert order[0..] == order;
    PrintNext(fields, order, 0);
    EightIs();
    var s := Print(fields, order);
    assert s[0..2] == [s[0], s[1]];
  }

  lemma EightIs()
    ensures Itoa(8) == [56]
  {
  }

  /** The trailer is where the last "10=" is, whatever the body holds. */
  lemma LastTen(body: bytes)
    ensures LastFrom(Sealed(body), TEN_EQUALS, |Sealed(body)|) == |body|
  {
    hide LastFrom, Checksum;
    var s, n := Sealed(body), |body|;
    assert s[n..] == TEN_EQUALS + Pad3(Checksum(body)) + [SOH];
    assert At(s, TEN_EQUALS, n);
    forall j | n < j ensures !At(s, TEN_EQUALS, j) {
      if j + 3 <= |s| {
        assert s[j..j + 3][2] == s[n..][j + 2 - n];
      }
    }
  }

  /** And it ends with the message. */
  lemma TrailerEnds(body: bytes)
    ensures FirstFrom(Sealed(body), [SOH], |body|) == |Sealed(body)| - 1
  {
    hide FirstFrom, Checksum;
    var s, n := Sealed(body), |body|;
    assert s[n..] == TEN_EQUALS + Pad3(Checksum(body)) + [SOH];
    assert At(s, [SOH], n + 6);
    forall j | n <= j < n + 6 ensures !At(s, [SOH], j) {
      assert s[j..j + 1][0] == s[n..][j - n];
    }
  }

  /** On its own, a built message is read back whole: exactly its fields, and the checksum as tag 10. */
  lemma ReadOfBuild(fields: Fields, order: seq<int>)
    requires Printable(fields) && TagOrder(fields, order) && 8 in fields
    ensures var msg := Sealed(Print(fields, order));
            ReadFIXMessage(msg) == Message(fields[10 := Pad3(Checksum(Print(fields, order)))], |msg|)
  {
    hide Print, Parsed, Pad3, Checksum, Printable, LastFrom, FirstFrom;
    var body := Print(fields, order);
    var msg := Sealed(body);
    LastTen(body);
    TrailerEnds(body);
    PrintStartsWithEight(fields, order);
    assert msg[..|msg|] == msg;
    assert At(msg, EIGHT_EQUALS, 0) by {
      assert msg[0..2] == body[0..2];
    }
    assert msg[0..] == msg;
    ParseOfSealed(fields, order);
  }

  /** What `Build` returns, a reader takes back whole. */
  lemma ReadOfBuilt(fields: Fields, msg: bytes)
    requires Printable(fields) && 8 in fields && IsBuilt(fields, msg)
    ensures |msg| > 7
    ensures ReadFIXMessage(msg) == Message(fields[10 := Pad3(Checksum(msg[..|msg| - 7]))], |msg|)
  {
    hide ReadFIXMessage, Printable, Pad3, Checksum, Print;
    var body :| IsPrinted(fields, body) && msg == Sealed(body);
    var order :| TagOrder(fields, order) && body == Print(fields, order);
    ReadOfBuild(fields, order);
    PrintStartsWithEight(fields, order);
    SealedIs(body);
  }

  /** A built message is the fields printed, "10=", three digits and a separator; the number in the digits is
      the checksum of all bytes before the "10=". */
  lemma TrailerIs(fields: Fields, msg: bytes)
    requires IsBuilt(fields, msg)
    ensures |msg| >= 7
    ensures var n := |msg| - 7;
            && IsPrinted(fields, msg[..n])
            && msg[n..n + 3] == Ascii("10=") && msg[n + 6] == 1
            && AllDigits(msg[n + 3..n + 6]) && Number(msg[n + 3..n + 6]) == Checksum(msg[..n])
  {
    hide Checksum, Pad3, Number, IsPrinted, AllDigits;
    var body :| IsPrinted(fields, body) && msg == Sealed(body);
    SealedIs(body);
    Pad3Is(Checksum(body));
    assert msg[..|body|] == body;
    assert msg[|body| + 3..|body| + 6] == Pad3(Checksum(body));
    assert msg[|body|..|body| + 3] == TEN_EQUALS == Ascii("10=");
  }

  /** A stamped message starts with its BeginString. */
  lemma StartsWithBeginString(fields: Fields, msg: bytes)
    requires IsBuilt(fields, msg) && 8 in fields && fields[8] == Ascii("FIX.4.4")
    ensures |msg| > 10 && msg[..10] == Ascii("8=FIX.4.4") + [SOH]
  {
    hide Print, Itoa, Checksum, Pad3;
    var body :| IsPrinted(fields, body) && msg == Sealed(body);
    var order :| TagOrder(fields, order) && body == Print(fields, order);
    assert Listed(order, 8);
    var i :| 0 <= i < |order| && order[i] == 8;
    assert i > 0 ==> Before(order[0], order[i]);
    assert order[0..] == order;
    PrintNext(fields, order, 0);
    EightIs();
    assert Ascii("8=FIX.4.4") == [56] + [EQUALS] + Ascii("FIX.4.4");
    assert msg[..10] == body[..10] == [56] + [EQUALS] + fields[8] + [SOH];
  }

  lemma SealedIs(body: bytes)
    ensures |Sealed(body)| == |body| + 7 && Sealed(body)[..|body|] == body
  {
  }

  lemma ParseOfSealed(fields: Fields, order: seq<int>)
    requires Printable(fields) && TagOrder(fields, order)
    ensures Parsed(Sealed(Print(fields, order))) == fields[10 := Pad3(Checksum(Print(fields, order)))]
  {
    hide Printable, Print, Merge, Checksum, AllDigits, Atoi, ParsePart, Split;
    var body := Print(fields, order);
    var cs := Pad3(Checksum(body));
    Pad3Is(Checksum(body));
    var tail := TEN_EQUALS + cs + [SOH];
    assert Sealed(body) == body + tail;
    ParsePrinted(map[], fields, order, tail);
    MergeAll(fields, order);
    assert Digits(10) == Digits(1) + [ZERO] && Digits(1) == [49];
    assert TEN_EQUALS + cs == Itoa(10) + [EQUALS] + cs;
    assert tail == TEN_EQUALS + cs + [SOH] + [];
    SplitFirst(TEN_EQUALS + cs, []);
    ParsePrintedPart(fields, 10, cs);
    ParseTwo(fields, TEN_EQUALS + cs);
  }

  lemma ParseTwo(fields: Fields, part: bytes)
    ensures ParseParts(fields, [part] + Split([])) == ParsePart(fields, part)
  {
    assert Split([]) == [[]];
    assert ([part] + [[]])[1..] == [[]];
    assert ParseParts(ParsePart(fields, part), [[]]) == ParsePart(fields, part);
  }
}
