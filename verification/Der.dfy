/** The definite-length DER reader and the walk over an X.501 Name. */
module Der {
  type byte = b: int | 0 <= b < 256
  type Bytes = seq<byte>

  datatype Error = IndexError | NonDerLength | Truncated | WrongTag

  datatype Result<T> = Ok(value: T) | Err(error: Error)

  // What `read_tlv` returns: tag, content, index behind the element.
  datatype Tlv = Tlv(tag: byte, content: Bytes, next: nat)

  datatype Pair = Pair(oid: Bytes, value: Bytes)

  const SEQUENCE: byte := 0x30
  const SET: byte := 0x31
  const VERSION: byte := 0xA0

  // ─── one element ───────────────────────────────────────────────────────────

  function BigEndian(b: Bytes): nat
    decreases |b|
  {
    if b == [] then 0 else BigEndian(b[..|b| - 1]) * 256 + b[|b| - 1]
  }

  function ReadAt(buf: Bytes, i: nat): (r: Result<Tlv>)
    ensures r.Ok? ==> i + 2 <= r.value.next <= |buf| && |r.value.content| <= r.value.next - i - 2
  {
    if i + 1 >= |buf| then Err(IndexError)
    else
      var first := buf[i + 1];
      if first < 0x80 then Slice(buf, buf[i], i + 2, first)
      else
        var n := first - 0x80;
        if n == 0 || n > 4 || i + 2 + n > |buf| then Err(NonDerLength)
        else Slice(buf, buf[i], i + 2 + n, BigEndian(buf[i + 2..i + 2 + n]))
  }

  function Slice(buf: Bytes, tag: byte, i: nat, length: nat): Result<Tlv> {
    if i + length > |buf| then Err(Truncated) else Ok(Tlv(tag, buf[i..i + length], i + length))
  }

  method FromBytes(b: Bytes) returns (n: nat)
    ensures n == BigEndian(b)
  {
    n := 0;
    for k := 0 to |b|
      invariant n == BigEndian(b[..k])
    {
      assert b[..k + 1][..k] == b[..k];
      n := n * 256 + b[k];
    }
    assert b[..|b|] == b;
  }

  /**
   * `read_tlv`. Each error has its own cause: no tag or no length octet, a length that is not DER,
   * content cut short.
   */
  method ReadTlv(buf: Bytes, start: nat) returns (r: Result<Tlv>)
    ensures r == ReadAt(buf, start)
    ensures r == Err(IndexError) <==> start + 2 > |buf|
    ensures r == Err(NonDerLength) <==>
      start + 2 <= |buf| && buf[start + 1] >= 0x80 &&
      (buf[start + 1] !in {0x81, 0x82, 0x83, 0x84} || start + 2 + (buf[start + 1] - 0x80) > |buf|)
    ensures r.Err? ==> r.error in {IndexError, NonDerLength, Truncated}
  {
    var i := start;
    if i >= |buf| { return Err(IndexError); }
    var tag := buf[i];
    i := i + 1;
    if i >= |buf| { return Err(IndexError); }
    var first := buf[i];
    i := i + 1;
    var length: nat;
    if first < 0x80 {
      length := first;
    } else {
      var n := first - 0x80;
      if n == 0 || n > 4 || i + n > |buf| { return Err(NonDerLength); }
      length := FromBytes(buf[i..i + n]);
      i := i + n;
    }
    if i + length > |buf| { return Err(Truncated); }
    return Ok(Tlv(tag, buf[i..i + length], i + length));
  }

  // ─── the grammar ───────────────────────────────────────────────────────────

  // An element with the length octets it was encoded with.
  datatype Elem = Elem(tag: byte, len: Bytes, content: Bytes)

  /**
   * Definite length, short form or long form with at most four octets, most significant first (section
   * 8.1.3 of X.690).
   */
  ghost predicate Length(len: Bytes, n: nat) {
    || (n < 0x80 && len == [n])
    || (n < 0x100 && len == [0x81, n])
    || (n < 0x1_0000 && len == [0x82, n / 0x100, n % 0x100])
    || (n < 0x100_0000 && len == [0x83, n / 0x1_0000, n / 0x100 % 0x100, n % 0x100])
    || (n < 0x1_0000_0000 && len == [0x84, n / 0x100_0000, n / 0x1_0000 % 0x100, n / 0x100 % 0x100, n % 0x100])
  }

  lemma {:induction false} OneOctet(b: Bytes)
    requires |b| == 1
    ensures BigEndian(b) == b[0]
  {
    assert b[..0] == [];
  }

  lemma {:induction false} OctetMore(b: Bytes)
    requires b != []
    ensures BigEndian(b) == BigEndian(b[..|b| - 1]) * 0x100 + b[|b| - 1]
  {
  }

  lemma {:induction false} TwoOctets(b: Bytes)
    requires |b| == 2
    ensures BigEndian(b) == 0x100 * (b[0] as int) + b[1]
  {
    OctetMore(b);
    OneOctet(b[..1]);
  }

  lemma {:induction false} ThreeOctets(b: Bytes)
    requires |b| == 3
    ensures BigEndian(b) == 0x1_0000 * (b[0] as int) + 0x100 * (b[1] as int) + b[2]
  {
    OctetMore(b);
    TwoOctets(b[..2]);
  }

  lemma {:induction false} FourOctets(b: Bytes)
    requires |b| == 4
    ensures BigEndian(b) == 0x100_0000 * (b[0] as int) + 0x1_0000 * (b[1] as int) + 0x100 * (b[2] as int) + b[3]
  {
    OctetMore(b);
    ThreeOctets(b[..3]);
  }

  lemma LastDigit(n: nat, high: nat, low: byte)
    ensures n == 0x100 * high + low <==> high == n / 0x100 && low == n % 0x100
  {
  }

  lemma Quotients(n: nat)
    ensures n / 0x100 / 0x100 == n / 0x1_0000 && n / 0x1_0000 / 0x100 == n / 0x100_0000
  {
  }

  lemma {:induction false} ThreeDigits(n: nat, x: byte, y: byte, z: byte)
    ensures n == 0x1_0000 * x + 0x100 * y + z <==>
      x == n / 0x1_0000 && y == n / 0x100 % 0x100 && z == n % 0x100
  {
    LastDigit(n, 0x100 * x + y, z);
    LastDigit(n / 0x100, x, y);
    Quotients(n);
  }

  lemma {:induction false} FourDigits(n: nat, w: byte, x: byte, y: byte, z: byte)
    ensures n == 0x100_0000 * w + 0x1_0000 * x + 0x100 * y + z <==>
      w == n / 0x100_0000 && x == n / 0x1_0000 % 0x100 && y == n / 0x100 % 0x100 && z == n % 0x100
  {
    LastDigit(n, 0x1_0000 * w + 0x100 * x + y, z);
    ThreeDigits(n / 0x100, w, x, y);
    Quotients(n);
  }

  /** The octets of a long form that the reader takes for `n`. */
  ghost predicate LongForm(len: Bytes, n: nat) {
    2 <= |len| <= 5 && len[0] == 0x80 + (|len| - 1) && BigEndian(len[1..]) == n
  }

  lemma {:induction false} LongForms(len: Bytes, n: nat)
    ensures |len| == 2 ==> (LongForm(len, n) <==> n < 0x100 && len == [0x81, n])
    ensures |len| == 3 ==> (LongForm(len, n) <==> n < 0x1_0000 && len == [0x82, n / 0x100, n % 0x100])
  {
    if |len| == 2 {
      OneOctet(len[1..]);
    } else if |len| == 3 {
      TwoOctets(len[1..]);
      LastDigit(n, len[1], len[2]);
    }
  }

  lemma {:induction false} LongerForms(len: Bytes, n: nat)
    ensures |len| == 4 ==>
      (LongForm(len, n) <==> n < 0x100_0000 && len == [0x83, n / 0x1_0000, n / 0x100 % 0x100, n % 0x100])
    ensures |len| == 5 ==>
      (LongForm(len, n) <==>
        n < 0x1_0000_0000 && len == [0x84, n / 0x100_0000, n / 0x1_0000 % 0x100, n / 0x100 % 0x100, n % 0x100])
  {
    if |len| == 4 {
      ThreeOctets(len[1..]);
      ThreeDigits(n, len[1], len[2], len[3]);
    } else if |len| == 5 {
      FourOctets(len[1..]);
      FourDigits(n, len[1], len[2], len[3], len[4]);
    }
  }

  /** The grammar's length octets are those that the reader takes for `n`. */
  lemma {:induction false} LengthRead(len: Bytes, n: nat)
    ensures Length(len, n) <==> (|len| == 1 && len[0] < 0x80 && len[0] == n) || LongForm(len, n)
  {
    LongForms(len, n);
    LongerForms(len, n);
  }

  ghost predicate WellFormed(e: Elem) {
    Length(e.len, |e.content|)
  }

  function Encode(e: Elem): Bytes {
    [e.tag] + e.len + e.content
  }

  /** Reading an element where it was encoded gives it back, whatever surrounds it. */
  lemma ReadEncoded(buf: Bytes, i: nat, e: Elem, rest: Bytes)
    requires WellFormed(e) && i <= |buf| && buf[i..] == Encode(e) + rest
    ensures var next := i + |Encode(e)|;
            next <= |buf| && buf[next..] == rest && ReadAt(buf, i) == Ok(Tlv(e.tag, e.content, next))
  {
    Layout(e, rest);
    LengthRead(e.len, |e.content|);
    var n, k := |e.len|, 1 + |e.len|;
    Within(buf, i, 0, 1);
    Within(buf, i, 1, k);
    Within(buf, i, k, k + |e.content|);
    assert buf[i] == buf[i..i + 1][0] && buf[i + 1] == buf[i + 1..i + k][0];
    if n > 1 {
      assert buf[i + 2..i + 1 + n] == buf[i + 1..i + k][1..];
    }
    assert buf[i + |Encode(e)|..] == buf[i..][|Encode(e)|..];
  }

  lemma Layout(e: Elem, rest: Bytes)
    ensures var here, k := Encode(e) + rest, 1 + |e.len|;
            && |Encode(e)| == k + |e.content| && here[0..1] == [e.tag] && here[1..k] == e.len
            && here[k..k + |e.content|] == e.content && here[|Encode(e)|..] == rest
  {
  }

  lemma Within(buf: Bytes, i: nat, x: nat, y: nat)
    requires i <= |buf| && x <= y <= |buf| - i
    ensures buf[i..][x..y] == buf[i + x..i + y]
  {
  }

  /** Whatever is read was encoded there. */
  lemma ReadDecodes(buf: Bytes, i: nat) returns (e: Elem)
    requires ReadAt(buf, i).Ok?
    ensures var t := ReadAt(buf, i).value;
            WellFormed(e) && buf[i..t.next] == Encode(e) && t.tag == e.tag && t.content == e.content
  {
    var t, first := ReadAt(buf, i).value, buf[i + 1];
    if first < 0x80 {
      e := Elem(t.tag, [first], t.content);
    } else {
      var n := first - 0x80;
      e := Elem(t.tag, buf[i + 1..i + 2 + n], t.content);
      assert e.len[1..] == buf[i + 2..i + 2 + n];
      assert buf[i..t.next] == [buf[i]] + buf[i + 1..i + 2 + n] + buf[i + 2 + n..t.next];
    }
    LengthRead(e.len, |e.content|);
  }

  // A Name: RDN sets of attribute sequences, each an OID element and a value element. What follows
  // the value inside an attribute is not looked at.
  datatype Attribute = Attribute(tag: byte, len: Bytes, oid: Elem, value: Elem, rest: Bytes)
  datatype Rdn = Rdn(len: Bytes, attributes: seq<Attribute>)
  type Name = seq<Rdn>

  function AttributeContent(a: Attribute): Bytes {
    Encode(a.oid) + Encode(a.value) + a.rest
  }

  function AttributeElem(a: Attribute): Elem {
    Elem(a.tag, a.len, AttributeContent(a))
  }

  function EncodeAttributes(s: seq<Attribute>): Bytes {
    if s == [] then [] else Encode(AttributeElem(s[0])) + EncodeAttributes(s[1..])
  }

  function RdnElem(r: Rdn): Elem {
    Elem(0x31, r.len, EncodeAttributes(r.attributes))
  }

  function EncodeName(name: Name): Bytes {
    if name == [] then [] else Encode(RdnElem(name[0])) + EncodeName(name[1..])
  }

  ghost predicate ValidAttribute(a: Attribute) {
    a.tag == 0x30 && WellFormed(AttributeElem(a)) && WellFormed(a.oid) && WellFormed(a.value)
  }

  ghost predicate ValidAttributes(s: seq<Attribute>) {
    forall i :: 0 <= i < |s| ==> ValidAttribute(s[i])
  }

  ghost predicate ValidName(name: Name) {
    forall i :: 0 <= i < |name| ==> WellFormed(RdnElem(name[i])) && ValidAttributes(name[i].attributes)
  }

  function AttributePairs(s: seq<Attribute>): seq<Pair> {
    if s == [] then [] else [Pair(s[0].oid.content, s[0].value.content)] + AttributePairs(s[1..])
  }

  function Pairs(name: Name): seq<Pair> {
    if name == [] then [] else AttributePairs(name[0].attributes) + Pairs(name[1..])
  }

  // ─── the walk ──────────────────────────────────────────────────────────────

  /** OID and value of one AttributeTypeAndValue. */
  function ReadPair(atv: Bytes): Result<Pair> {
    var oid := ReadAt(atv, 0);
    if oid.Err? then Err(oid.error)
    else
      var value := ReadAt(atv, oid.value.next);
      if value.Err? then Err(value.error) else Ok(Pair(oid.value.content, value.value.content))
  }

  function Prepend(p: seq<Pair>, r: Result<seq<Pair>>): Result<seq<Pair>> {
    if r.Ok? then Ok(p + r.value) else r
  }

  function WalkSet(buf: Bytes, k: nat): Result<seq<Pair>>
    decreases |buf| - k
  {
    if k >= |buf| then Ok([])
    else
      var t := ReadAt(buf, k);
      if t.Err? then Err(t.error)
      else if t.value.tag != SEQUENCE then Err(WrongTag)
      else
        var p := ReadPair(t.value.content);
        if p.Err? then Err(p.error) else Prepend([p.value], WalkSet(buf, t.value.next))
  }

  function WalkFrom(buf: Bytes, j: nat): Result<seq<Pair>>
    decreases |buf| - j
  {
    if j >= |buf| then Ok([])
    else
      var t := ReadAt(buf, j);
      if t.Err? then Err(t.error)
      else if t.value.tag != SET then Err(WrongTag)
      else
        var p := WalkSet(t.value.content, 0);
        if p.Err? then p else Prepend(p.value, WalkFrom(buf, t.value.next))
  }

  lemma PrependTwice(p: seq<Pair>, q: seq<Pair>, r: Result<seq<Pair>>)
    ensures Prepend(p, Prepend(q, r)) == Prepend(p + q, r)
  {
    if r.Ok? { assert p + (q + r.value) == (p + q) + r.value; }
  }

  lemma PrependNothing(p: seq<Pair>, r: Result<seq<Pair>>)
    ensures Prepend([], r) == r && Prepend(p, Ok([])) == Ok(p)
  {
    if r.Ok? { assert [] + r.value == r.value; }
    assert p + [] == p;
  }

  /** `walk_name`. */
  method WalkName(content: Bytes) returns (r: Result<seq<Pair>>)
    ensures r == WalkFrom(content, 0)
  {
    var pairs: seq<Pair> := [];
    var j := 0;
    PrependNothing([], WalkFrom(content, 0));
    while j < |content|
      invariant j <= |content| && WalkFrom(content, 0) == Prepend(pairs, WalkFrom(content, j))
    {
      var t := ReadTlv(content, j);
      if t.Err? { return Err(t.error); }
      if t.value.tag != SET { return Err(WrongTag); }
      var more := WalkRdn(t.value.content);
      if more.Err? { return more; }
      PrependTwice(pairs, more.value, WalkFrom(content, t.value.next));
      pairs, j := pairs + more.value, t.value.next;
    }
    PrependNothing(pairs, Ok([]));
    return Ok(pairs);
  }

  /** The inner loop, over one RDN set. */
  method WalkRdn(rdnset: Bytes) returns (r: Result<seq<Pair>>)
    ensures r == WalkSet(rdnset, 0)
  {
    var pairs: seq<Pair> := [];
    var k := 0;
    PrependNothing([], WalkSet(rdnset, 0));
    while k < |rdnset|
      invariant k <= |rdnset| && WalkSet(rdnset, 0) == Prepend(pairs, WalkSet(rdnset, k))
    {
      var t := ReadTlv(rdnset, k);
      if t.Err? { return Err(t.error); }
      if t.value.tag != SEQUENCE { return Err(WrongTag); }
      var atv := t.value.content;
      var oid := ReadTlv(atv, 0);
      if oid.Err? { return Err(oid.error); }
      var value := ReadTlv(atv, oid.value.next);
      if value.Err? { return Err(value.error); }
      var pair := Pair(oid.value.content, value.value.content);
      PrependTwice(pairs, [pair], WalkSet(rdnset, t.value.next));
      pairs, k := pairs + [pair], t.value.next;
    }
    PrependNothing(pairs, Ok([]));
    return Ok(pairs);
  }

  // ─── every encoding is read back ───────────────────────────────────────────

  lemma PairEncoded(a: Attribute)
    requires ValidAttribute(a)
    ensures ReadPair(AttributeContent(a)) == Ok(Pair(a.oid.content, a.value.content))
  {
    PairAt(AttributeContent(a), a.oid, a.value, a.rest);
  }

  lemma PairAt(atv: Bytes, oid: Elem, value: Elem, rest: Bytes)
    requires WellFormed(oid) && WellFormed(value) && atv == Encode(oid) + Encode(value) + rest
    ensures ReadPair(atv) == Ok(Pair(oid.content, value.content))
  {
    var after := Encode(value) + rest;
    assert atv[0..] == Encode(oid) + after;
    ReadEncoded(atv, 0, oid, after);
    ReadEncoded(atv, |Encode(oid)|, value, rest);
  }

  lemma AttributeEncoded(buf: Bytes, k: nat, a: Attribute, rest: Bytes) returns (t: Tlv)
    requires ValidAttribute(a) && k <= |buf| && buf[k..] == Encode(AttributeElem(a)) + rest
    ensures k < t.next <= |buf| && buf[t.next..] == rest && ReadAt(buf, k) == Ok(t) && t.tag == SEQUENCE
    ensures ReadPair(t.content) == Ok(Pair(a.oid.content, a.value.content))
  {
    ReadEncoded(buf, k, AttributeElem(a), rest);
    PairEncoded(a);
    t := ReadAt(buf, k).value;
  }

  lemma {:induction false} SetEncoded(buf: Bytes, k: nat, s: seq<Attribute>)
    requires ValidAttributes(s) && k <= |buf| && buf[k..] == EncodeAttributes(s)
    ensures WalkSet(buf, k) == Ok(AttributePairs(s))
    decreases |s|
  {
    if s != [] {
      var t := AttributeEncoded(buf, k, s[0], EncodeAttributes(s[1..]));
      SetEncoded(buf, t.next, s[1..]);
    }
  }

  /** Walking any encoding of a Name gives its (OID, value) pairs in order. */
  lemma {:induction false} NameEncoded(buf: Bytes, j: nat, name: Name)
    requires ValidName(name) && j <= |buf| && buf[j..] == EncodeName(name)
    ensures WalkFrom(buf, j) == Ok(Pairs(name))
    decreases |name|
  {
    if name != [] {
      var t := RdnEncoded(buf, j, name[0], EncodeName(name[1..]));
      NameEncoded(buf, t.next, name[1..]);
    }
  }

  lemma RdnEncoded(buf: Bytes, j: nat, r: Rdn, rest: Bytes) returns (t: Tlv)
    requires WellFormed(RdnElem(r)) && ValidAttributes(r.attributes) && j <= |buf|
    requires buf[j..] == Encode(RdnElem(r)) + rest
    ensures j < t.next <= |buf| && buf[t.next..] == rest && ReadAt(buf, j) == Ok(t) && t.tag == SET
    ensures WalkSet(t.content, 0) == Ok(AttributePairs(r.attributes))
  {
    var e := RdnElem(r);
    ReadEncoded(buf, j, e, rest);
    assert e.content[0..] == e.content;
    SetEncoded(e.content, 0, r.attributes);
    t := ReadAt(buf, j).value;
  }

  // ─── and nothing else is accepted ──────────────────────────────────────────

  lemma PairDecodes(atv: Bytes, tag: byte, len: Bytes) returns (a: Attribute)
    requires ReadPair(atv).Ok?
    ensures a.tag == tag && a.len == len && AttributeContent(a) == atv && WellFormed(a.oid) && WellFormed(a.value)
    ensures ReadPair(atv).value == Pair(a.oid.content, a.value.content)
  {
    var p := ReadAt(atv, 0).value.next;
    var q := ReadAt(atv, p).value.next;
    var oid := ReadDecodes(atv, 0);
    var value := ReadDecodes(atv, p);
    a := Attribute(tag, len, oid, value, atv[q..]);
    assert atv == atv[0..p] + atv[p..q] + atv[q..];
  }

  lemma AttributeDecodes(buf: Bytes, k: nat) returns (a: Attribute)
    requires ReadAt(buf, k).Ok? && ReadAt(buf, k).value.tag == SEQUENCE && ReadPair(ReadAt(buf, k).value.content).Ok?
    ensures var t := ReadAt(buf, k).value;
            && ValidAttribute(a) && buf[k..t.next] == Encode(AttributeElem(a))
            && ReadPair(t.content) == Ok(Pair(a.oid.content, a.value.content))
  {
    var e := ReadDecodes(buf, k);
    a := PairDecodes(e.content, SEQUENCE, e.len);
  }

  lemma Rejoin(buf: Bytes, k: nat, next: nat)
    requires k <= next <= |buf|
    ensures buf[k..] == buf[k..next] + buf[next..]
  {
  }

  lemma SetStep(buf: Bytes, k: nat) returns (next: nat)
    requires k < |buf| && WalkSet(buf, k).Ok?
    ensures ReadAt(buf, k).Ok? && ReadAt(buf, k).value.tag == SEQUENCE && ReadPair(ReadAt(buf, k).value.content).Ok?
    ensures k < next == ReadAt(buf, k).value.next <= |buf| && WalkSet(buf, next).Ok?
    ensures WalkSet(buf, k).value == [ReadPair(ReadAt(buf, k).value.content).value] + WalkSet(buf, next).value
  {
    next := ReadAt(buf, k).value.next;
  }

  lemma {:induction false} OneMoreAttribute(a: Attribute, rest: seq<Attribute>)
    ensures EncodeAttributes([a] + rest) == Encode(AttributeElem(a)) + EncodeAttributes(rest)
    ensures AttributePairs([a] + rest) == [Pair(a.oid.content, a.value.content)] + AttributePairs(rest)
    ensures ValidAttributes([a] + rest) <==> ValidAttribute(a) && ValidAttributes(rest)
  {
    var s := [a] + rest;
    assert s[0] == a && s[1..] == rest;
    assert forall i :: 0 <= i < |rest| ==> s[i + 1] == rest[i];
  }

  lemma {:induction false} SetDecodes(buf: Bytes, k: nat) returns (s: seq<Attribute>)
    requires k <= |buf| && WalkSet(buf, k).Ok?
    ensures ValidAttributes(s) && EncodeAttributes(s) == buf[k..] && AttributePairs(s) == WalkSet(buf, k).value
    decreases |buf| - k
  {
    s := [];
    if k < |buf| {
      var next := SetStep(buf, k);
      var a := AttributeDecodes(buf, k);
      var rest := SetDecodes(buf, next);
      s := [a] + rest;
      OneMoreAttribute(a, rest);
      Rejoin(buf, k, next);
    }
  }

  lemma {:induction false} NameDecodes(buf: Bytes, j: nat) returns (name: Name)
    requires j <= |buf| && WalkFrom(buf, j).Ok?
    ensures ValidName(name) && EncodeName(name) == buf[j..] && Pairs(name) == WalkFrom(buf, j).value
    decreases |buf| - j
  {
    name := [];
    if j < |buf| {
      var t := ReadAt(buf, j).value;
      var e := ReadDecodes(buf, j);
      var s := SetDecodes(e.content, 0);
      assert e.content[0..] == e.content;
      var rest := NameDecodes(buf, t.next);
      name := [Rdn(e.len, s)] + rest;
      assert name[1..] == rest;
      Rejoin(buf, j, t.next);
    }
  }

  ghost predicate Encodes(buf: Bytes, pairs: seq<Pair>) {
    exists name :: ValidName(name) && EncodeName(name) == buf && Pairs(name) == pairs
  }

  /**
   * The walk succeeds with exactly the pairs of the Name it was given: the sets tile the content, the
   * attributes tile each set, and whatever is not such an encoding is refused.
   */
  lemma {:induction false} WalkIff(buf: Bytes, pairs: seq<Pair>)
    ensures WalkFrom(buf, 0) == Ok(pairs) <==> Encodes(buf, pairs)
  {
    if WalkFrom(buf, 0) == Ok(pairs) {
      var name := NameDecodes(buf, 0);
      assert buf[0..] == buf;
    }
    if Encodes(buf, pairs) {
      var name :| ValidName(name) && EncodeName(name) == buf && Pairs(name) == pairs;
      assert buf[0..] == buf;
      NameEncoded(buf, 0, name);
    }
  }

  // ─── certificates ──────────────────────────────────────────────────────────

  datatype Names = Names(issuer: seq<Pair>, subject: seq<Pair>)

  // A certificate down to the two Names: the version element is absent in version 1.
  datatype Certificate = Certificate(certLen: Bytes, tbsLen: Bytes, version: seq<Elem>, serial: Elem, algorithm: Elem,
                                     issuerTag: byte, issuerLen: Bytes, issuer: Name, validity: Elem,
                                     subjectLen: Bytes, subject: Name, rest: Bytes, signature: Bytes)

  function IssuerElem(c: Certificate): Elem { Elem(c.issuerTag, c.issuerLen, EncodeName(c.issuer)) }
  function SubjectElem(c: Certificate): Elem { Elem(0x30, c.subjectLen, EncodeName(c.subject)) }

  function Version(c: Certificate): Bytes {
    if c.version == [] then [] else Encode(c.version[0])
  }

  function EncodeAll(es: seq<Elem>): Bytes {
    if es == [] then [] else Encode(es[0]) + EncodeAll(es[1..])
  }

  function Body(c: Certificate): seq<Elem> {
    [c.serial, c.algorithm, IssuerElem(c), c.validity, SubjectElem(c)]
  }

  function TbsContent(c: Certificate): Bytes {
    Version(c) + (EncodeAll(Body(c)) + c.rest)
  }

  function TbsElem(c: Certificate): Elem { Elem(0x30, c.tbsLen, TbsContent(c)) }
  function CertElem(c: Certificate): Elem { Elem(0x30, c.certLen, Encode(TbsElem(c)) + c.signature) }

  ghost predicate ValidCertificate(c: Certificate) {
    WellFormed(CertElem(c)) && WellFormed(TbsElem(c)) && ValidBody(c)
  }

  ghost predicate ValidBody(c: Certificate) {
    && |c.version| <= 1 && (forall e :: e in c.version ==> e.tag == 0xA0 && WellFormed(e))
    && WellFormed(c.serial) && (c.version == [] ==> c.serial.tag != 0xA0) && WellFormed(c.algorithm)
    && WellFormed(IssuerElem(c)) && WellFormed(c.validity) && WellFormed(SubjectElem(c))
    && ValidName(c.issuer) && ValidName(c.subject)
  }

  /** Element `n` of those that start at `i`. */
  function ElementAt(buf: Bytes, i: nat, n: nat): Result<Tlv>
    decreases n
  {
    var t := ReadAt(buf, i);
    if t.Err? || n == 0 then t else ElementAt(buf, t.value.next, n - 1)
  }

  function NamesIn(issuer: Bytes, subject: Bytes): Result<Names> {
    var i, s := WalkFrom(issuer, 0), WalkFrom(subject, 0);
    if i.Err? then Err(i.error) else if s.Err? then Err(s.error) else Ok(Names(i.value, s.value))
  }

  function TbsNamesOf(tbs: Bytes): Result<Names> {
    var first := ReadAt(tbs, 0);
    if first.Err? then Err(first.error)
    else
      var start := if first.value.tag != VERSION then 0 else first.value.next;
      var issuer, subject := ElementAt(tbs, start, 2), ElementAt(tbs, start, 4);
      if subject.Err? then Err(subject.error)
      else if subject.value.tag != SEQUENCE then Err(WrongTag)
      else if issuer.Err? then Err(issuer.error)
      else NamesIn(issuer.value.content, subject.value.content)
  }

  function CertNamesOf(der: Bytes): Result<Names> {
    var cert := ReadAt(der, 0);
    if cert.Err? then Err(cert.error)
    else if cert.value.tag != SEQUENCE then Err(WrongTag)
    else
      var tbs := ReadAt(cert.value.content, 0);
      if tbs.Err? then Err(tbs.error)
      else if tbs.value.tag != SEQUENCE then Err(WrongTag)
      else TbsNamesOf(tbs.value.content)
  }

  /** `cert_names`: the elements of the certificate body, one after the other. */
  method CertNames(der: Bytes) returns (r: Result<Names>)
    ensures r == CertNamesOf(der)
  {
    var cert := ReadTlv(der, 0);
    if cert.Err? { return Err(cert.error); }
    if cert.value.tag != SEQUENCE { return Err(WrongTag); }
    var tbs := ReadTlv(cert.value.content, 0);
    if tbs.Err? { return Err(tbs.error); }
    if tbs.value.tag != SEQUENCE { return Err(WrongTag); }
    r := TbsNames(tbs.value.content);
  }

  method TbsNames(tbs: Bytes) returns (r: Result<Names>)
    ensures r == TbsNamesOf(tbs)
  {
    var first := ReadTlv(tbs, 0);
    if first.Err? { return Err(first.error); }
    var i := if first.value.tag != VERSION then 0 else first.value.next;
    Elements(tbs, i);
    var serial := ReadTlv(tbs, i);
    if serial.Err? { return Err(serial.error); }
    var algorithm := ReadTlv(tbs, serial.value.next);
    if algorithm.Err? { return Err(algorithm.error); }
    var issuer := ReadTlv(tbs, algorithm.value.next);
    if issuer.Err? { return Err(issuer.error); }
    var validity := ReadTlv(tbs, issuer.value.next);
    if validity.Err? { return Err(validity.error); }
    var subject := ReadTlv(tbs, validity.value.next);
    if subject.Err? { return Err(subject.error); }
    if subject.value.tag != SEQUENCE { return Err(WrongTag); }
    var issuerPairs := WalkName(issuer.value.content);
    if issuerPairs.Err? { return Err(issuerPairs.error); }
    var subjectPairs := WalkName(subject.value.content);
    if subjectPairs.Err? { return Err(subjectPairs.error); }
    return Ok(Names(issuerPairs.value, subjectPairs.value));
  }

  function After(t: Result<Tlv>): nat {
    if t.Ok? then t.value.next else 0
  }

  /** The five elements read in a row. */
  lemma {:induction false} Elements(tbs: Bytes, i: nat)
    ensures var a := ReadAt(tbs, i);
            var b := ReadAt(tbs, After(a));
            var c := ReadAt(tbs, After(b));
            var d := ReadAt(tbs, After(c));
            var e := ReadAt(tbs, After(d));
            && ElementAt(tbs, i, 2) == (if a.Err? then a else if b.Err? then b else c)
            && ElementAt(tbs, i, 4)
               == (if a.Err? then a else if b.Err? then b else if c.Err? then c else if d.Err? then d else e)
  {
    var a := ReadAt(tbs, i);
    if a.Ok? {
      var b := ReadAt(tbs, After(a));
      assert ElementAt(tbs, i, 4) == ElementAt(tbs, After(a), 3);
      if b.Ok? {
        var c := ReadAt(tbs, After(b));
        assert ElementAt(tbs, After(a), 3) == ElementAt(tbs, After(b), 2);
      }
    }
  }

  /** The certificate body: whichever version, the two Names are found. */
  lemma TbsEncoded(tbs: Bytes, c: Certificate)
    requires ValidCertificate(c) && tbs == TbsContent(c)
    ensures TbsNamesOf(tbs) == Ok(Names(Pairs(c.issuer), Pairs(c.subject)))
  {
    var start := |Version(c)|;
    BodyFound(tbs, start, c);
    VersionFound(tbs, start, c);
    assert EncodeName(c.issuer)[0..] == EncodeName(c.issuer);
    NameEncoded(EncodeName(c.issuer), 0, c.issuer);
    assert EncodeName(c.subject)[0..] == EncodeName(c.subject);
    NameEncoded(EncodeName(c.subject), 0, c.subject);
  }

  lemma {:induction false} BodyFound(tbs: Bytes, start: nat, c: Certificate)
    requires ValidCertificate(c) && tbs == TbsContent(c) && start == |Version(c)|
    ensures ReadAt(tbs, start).Ok? && ReadAt(tbs, start).value.tag == c.serial.tag
    ensures var issuer, subject := ElementAt(tbs, start, 2), ElementAt(tbs, start, 4);
            && issuer.Ok? && issuer.value.content == EncodeName(c.issuer)
            && subject.Ok? && subject.value.tag == SEQUENCE && subject.value.content == EncodeName(c.subject)
  {
    assert tbs[start..] == EncodeAll(Body(c)) + c.rest;
    ElementEncoded(tbs, start, Body(c), c.rest, 0);
    ElementEncoded(tbs, start, Body(c), c.rest, 2);
    ElementEncoded(tbs, start, Body(c), c.rest, 4);
  }

  /** The optional version element, when there is one, ends where the body starts. */
  lemma VersionFound(tbs: Bytes, start: nat, c: Certificate)
    requires ValidCertificate(c) && tbs == TbsContent(c) && start == |Version(c)|
    ensures c.version == [] ==> start == 0
    ensures c.version != [] ==>
      ReadAt(tbs, 0).Ok? && ReadAt(tbs, 0).value.tag == VERSION && ReadAt(tbs, 0).value.next == start
  {
    if c.version != [] {
      assert c.version[0] in c.version;
      assert tbs[0..] == Encode(c.version[0]) + tbs[start..];
      ReadEncoded(tbs, 0, c.version[0], tbs[start..]);
    }
  }

  lemma {:induction false} ElementEncoded(buf: Bytes, i: nat, es: seq<Elem>, rest: Bytes, n: nat)
    requires n < |es| && (forall k :: 0 <= k < |es| ==> WellFormed(es[k])) && i <= |buf|
    requires buf[i..] == EncodeAll(es) + rest
    ensures var t := ElementAt(buf, i, n); t.Ok? && t.value.tag == es[n].tag && t.value.content == es[n].content
    decreases n
  {
    EncodeAllFirst(es, rest);
    ReadEncoded(buf, i, es[0], EncodeAll(es[1..]) + rest);
    if n > 0 {
      var next := i + |Encode(es[0])|;
      ElementEncoded(buf, next, es[1..], rest, n - 1);
      assert ElementAt(buf, i, n) == ElementAt(buf, next, n - 1);
    }
  }

  lemma {:induction false} EncodeAllFirst(es: seq<Elem>, rest: Bytes)
    requires es != []
    ensures EncodeAll(es) + rest == Encode(es[0]) + (EncodeAll(es[1..]) + rest)
  {
  }

  /** From the encoding of any certificate, `cert_names` returns the pairs of its issuer and of its subject. */
  lemma CertEncoded(der: Bytes, c: Certificate, trailing: Bytes)
    requires ValidCertificate(c) && der == Encode(CertElem(c)) + trailing
    ensures CertNamesOf(der) == Ok(Names(Pairs(c.issuer), Pairs(c.subject)))
  {
    var content := CertElem(c).content;
    assert der[0..] == der && content[0..] == content;
    ReadEncoded(der, 0, CertElem(c), trailing);
    ReadEncoded(content, 0, TbsElem(c), c.signature);
    TbsEncoded(TbsContent(c), c);
  }

  // ─── ... and back ──────────────────────────────────────────────────────────

  /** Elements read one after the other were encoded one after the other. */
  lemma {:induction false} ElementsDecode(buf: Bytes, i: nat, n: nat) returns (es: seq<Elem>, rest: Bytes)
    requires ElementAt(buf, i, n).Ok?
    ensures |es| == n + 1 && i <= |buf| && buf[i..] == EncodeAll(es) + rest
    ensures forall k :: 0 <= k <= n ==> WellFormed(es[k])
    ensures forall k: nat :: k <= n ==> ReadsAs(ElementAt(buf, i, k), es[k])
    decreases n
  {
    var t := ReadAt(buf, i).value;
    var e := ReadDecodes(buf, i);
    Rejoin(buf, i, t.next);
    if n == 0 {
      es, rest := [e], buf[t.next..];
      assert EncodeAll([e]) == Encode(e) + EncodeAll([]);
    } else {
      var more;
      more, rest := ElementsDecode(buf, t.next, n - 1);
      es := [e] + more;
      assert es[1..] == more;
      EncodeAllFirst(es, rest);
      forall k: nat | k <= n ensures ReadsAs(ElementAt(buf, i, k), es[k]) {
        if k > 0 { assert ElementAt(buf, i, k) == ElementAt(buf, t.next, k - 1); }
      }
    }
  }

  ghost predicate ReadsAs(t: Result<Tlv>, e: Elem) {
    t.Ok? && t.value.tag == e.tag && t.value.content == e.content
  }

  /** What is left of a certificate body in front of its elements. */
  lemma VersionDecodes(tbs: Bytes) returns (version: seq<Elem>, start: nat)
    requires ReadAt(tbs, 0).Ok?
    ensures var first := ReadAt(tbs, 0).value;
            start == (if first.tag != VERSION then 0 else first.next) && (version == [] <==> first.tag != VERSION)
    ensures |version| <= 1 && forall e :: e in version ==> e.tag == VERSION && WellFormed(e)
    ensures start <= |tbs| && tbs == (if version == [] then [] else Encode(version[0])) + tbs[start..]
  {
    var first := ReadAt(tbs, 0).value;
    if first.tag != VERSION {
      version, start := [], 0;
    } else {
      var e := ReadDecodes(tbs, 0);
      version, start := [e], first.next;
    }
  }

  /** What a successful look at a certificate body has read. */
  lemma {:induction false} TbsParts(tbs: Bytes, start: nat)
    requires TbsNamesOf(tbs).Ok?
    requires start == (if ReadAt(tbs, 0).value.tag != VERSION then 0 else ReadAt(tbs, 0).value.next)
    ensures ElementAt(tbs, start, 2).Ok? && ElementAt(tbs, start, 4).Ok?
    ensures ElementAt(tbs, start, 4).value.tag == SEQUENCE
    ensures var issuer, subject := ElementAt(tbs, start, 2).value.content, ElementAt(tbs, start, 4).value.content;
            && WalkFrom(issuer, 0).Ok? && WalkFrom(subject, 0).Ok?
            && TbsNamesOf(tbs).value == Names(WalkFrom(issuer, 0).value, WalkFrom(subject, 0).value)
  {
  }

  /** A body put together from its elements and its two Names. */
  lemma Assembled(version: seq<Elem>, es: seq<Elem>, issuer: Name, subject: Name, rest: Bytes) returns (c: Certificate)
    requires |version| <= 1 && (forall e :: e in version ==> e.tag == VERSION && WellFormed(e))
    requires |es| == 5 && (forall k :: 0 <= k < 5 ==> WellFormed(es[k])) && (version == [] ==> es[0].tag != VERSION)
    requires ValidName(issuer) && EncodeName(issuer) == es[2].content && es[4].tag == SEQUENCE
    requires ValidName(subject) && EncodeName(subject) == es[4].content
    ensures ValidBody(c) && c.issuer == issuer && c.subject == subject
    ensures TbsContent(c) == (if version == [] then [] else Encode(version[0])) + (EncodeAll(es) + rest)
  {
    c := Certificate([], [], version, es[0], es[1], es[2].tag, es[2].len, issuer, es[3], es[4].len, subject, rest, []);
    assert Body(c) == es;
  }

  lemma TbsDecodes(tbs: Bytes) returns (c: Certificate)
    requires TbsNamesOf(tbs).Ok?
    ensures TbsContent(c) == tbs && ValidBody(c) && TbsNamesOf(tbs).value == Names(Pairs(c.issuer), Pairs(c.subject))
  {
    var version, start := VersionDecodes(tbs);
    TbsParts(tbs, start);
    var es, rest := ElementsDecode(tbs, start, 4);
    assert ReadsAs(ElementAt(tbs, start, 0), es[0]) && ReadsAs(ElementAt(tbs, start, 2), es[2]);
    assert ReadsAs(ElementAt(tbs, start, 4), es[4]);
    var issuer := WholeName(es[2].content);
    var subject := WholeName(es[4].content);
    c := Assembled(version, es, issuer, subject, rest);
  }

  lemma WholeName(content: Bytes) returns (name: Name)
    requires WalkFrom(content, 0).Ok?
    ensures ValidName(name) && EncodeName(name) == content && Pairs(name) == WalkFrom(content, 0).value
  {
    name := NameDecodes(content, 0);
    assert content[0..] == content;
  }

  /** An element at the front of a buffer, and what follows it. */
  lemma FirstDecodes(buf: Bytes) returns (e: Elem, rest: Bytes)
    requires ReadAt(buf, 0).Ok?
    ensures WellFormed(e) && buf == Encode(e) + rest
    ensures ReadAt(buf, 0).value.tag == e.tag && ReadAt(buf, 0).value.content == e.content
  {
    var next := ReadAt(buf, 0).value.next;
    e := ReadDecodes(buf, 0);
    rest := buf[next..];
    assert buf == buf[0..next] + rest;
  }

  /** The body inside its two sequences. */
  lemma Wrapped(body: Certificate, outer: Elem, inner: Elem, signature: Bytes) returns (c: Certificate)
    requires ValidBody(body) && WellFormed(outer) && WellFormed(inner) && outer.tag == SEQUENCE && inner.tag == SEQUENCE
    requires inner.content == TbsContent(body) && outer.content == Encode(inner) + signature
    ensures ValidCertificate(c) && CertElem(c) == outer && c.issuer == body.issuer && c.subject == body.subject
  {
    c := body.(certLen := outer.len, tbsLen := inner.len, signature := signature);
    assert IssuerElem(c) == IssuerElem(body) && SubjectElem(c) == SubjectElem(body);
    assert Body(c) == Body(body) && Version(c) == Version(body);
    assert TbsElem(c) == inner;
  }

  /** Whatever `cert_names` accepts is the encoding of such a certificate. */
  lemma CertDecodes(der: Bytes) returns (c: Certificate, trailing: Bytes)
    requires CertNamesOf(der).Ok?
    ensures ValidCertificate(c) && der == Encode(CertElem(c)) + trailing
    ensures CertNamesOf(der).value == Names(Pairs(c.issuer), Pairs(c.subject))
  {
    var outer, inner, signature;
    outer, trailing := FirstDecodes(der);
    inner, signature := FirstDecodes(outer.content);
    var body := TbsDecodes(inner.content);
    c := Wrapped(body, outer, inner, signature);
  }

  ghost predicate EncodesCert(der: Bytes, names: Names) {
    exists c, trailing ::
      ValidCertificate(c) && der == Encode(CertElem(c)) + trailing && names == Names(Pairs(c.issuer), Pairs(c.subject))
  }

  /** `cert_names` returns two Names if and only if it was given the encoding of a certificate that holds them. */
  lemma CertIff(der: Bytes, names: Names)
    ensures CertNamesOf(der) == Ok(names) <==> EncodesCert(der, names)
  {
    if CertNamesOf(der) == Ok(names) {
      var c, trailing := CertDecodes(der);
    }
    if EncodesCert(der, names) {
      var c, trailing :|
        && ValidCertificate(c) && der == Encode(CertElem(c)) + trailing
        && names == Names(Pairs(c.issuer), Pairs(c.subject));
      CertEncoded(der, c, trailing);
    }
  }

  // ─── on the wire ───────────────────────────────────────────────────────────

  /** The short elements of the examples. */
  function Short(tag: byte, content: Bytes): Elem
    requires |content| < 0x80
  {
    Elem(tag, [|content|], content)
  }

  // OID 2.5.4.3.
  const COMMON_NAME: Bytes := [0x55, 0x04, 0x03]

  /** The Name with the single common name `cn`. */
  function CommonName(cn: byte): Name {
    [Rdn([10], [Attribute(0x30, [8], Short(0x06, COMMON_NAME), Short(0x0C, [cn]), [])])]
  }

  /** ... and its bytes. */
  function CommonNameBytes(cn: byte): Bytes {
    [0x31, 0x0A, 0x30, 0x08, 0x06, 0x03, 0x55, 0x04, 0x03, 0x0C, 0x01, cn]
  }

  lemma {:induction false} CommonNameEncoded(cn: byte)
    ensures ValidName(CommonName(cn)) && Pairs(CommonName(cn)) == [Pair(COMMON_NAME, [cn])]
    ensures EncodeName(CommonName(cn)) == CommonNameBytes(cn)
  {
    var name := CommonName(cn);
    var a := name[0].attributes[0];
    assert AttributeContent(a) == [0x06, 0x03, 0x55, 0x04, 0x03, 0x0C, 0x01, cn];
    assert Encode(AttributeElem(a)) == [0x30, 0x08, 0x06, 0x03, 0x55, 0x04, 0x03, 0x0C, 0x01, cn];
    OneMoreAttribute(a, []);
    assert [a] + [] == name[0].attributes;
    assert Encode(RdnElem(name[0])) == CommonNameBytes(cn);
    assert name[1..] == [];
    assert ValidAttribute(a);
  }

  /** The bytes of a Name, as they are found in a certificate. */
  lemma {:induction false} NameOnTheWire(cn: byte)
    ensures WalkFrom([0x31, 0x0A, 0x30, 0x08, 0x06, 0x03, 0x55, 0x04, 0x03, 0x0C, 0x01, cn], 0)
         == Ok([Pair([0x55, 0x04, 0x03], [cn])])
  {
    var buf := EncodeName(CommonName(cn));
    CommonNameEncoded(cn);
    assert buf[0..] == buf;
    NameEncoded(buf, 0, CommonName(cn));
  }

  function SmallCertificate(issuer: byte, subject: byte): Certificate {
    Certificate([0x2A], [0x28], [Short(0xA0, [0x02, 0x01, 0x02])], Short(0x02, [0x05]), Short(0x30, []),
                0x30, [0x0C], CommonName(issuer), Short(0x30, []), [0x0C], CommonName(subject), [], [])
  }

  /** What follows the version element of such a certificate. */
  function SmallBody(issuer: byte, subject: byte): Bytes {
    [0x02, 0x01, 0x05] + ([0x30, 0x00] + ([0x30, 0x0C] + CommonNameBytes(issuer) +
      ([0x30, 0x00] + ([0x30, 0x0C] + CommonNameBytes(subject)))))
  }

  lemma {:induction false} EncodeAllFive(a: Elem, b: Elem, c: Elem, d: Elem, e: Elem)
    ensures EncodeAll([a, b, c, d, e]) == Encode(a) + (Encode(b) + (Encode(c) + (Encode(d) + Encode(e))))
  {
    assert [a, b, c, d, e][1..] == [b, c, d, e] && [b, c, d, e][1..] == [c, d, e];
    assert [c, d, e][1..] == [d, e] && [d, e][1..] == [e] && [e][1..] == [];
    assert EncodeAll([e]) == Encode(e) + [] == Encode(e);
    assert EncodeAll([d, e]) == Encode(d) + EncodeAll([e]);
    assert EncodeAll([c, d, e]) == Encode(c) + EncodeAll([d, e]);
    assert EncodeAll([b, c, d, e]) == Encode(b) + EncodeAll([c, d, e]);
  }

  lemma {:induction false} SmallBodyEncoded(issuer: byte, subject: byte)
    ensures EncodeAll(Body(SmallCertificate(issuer, subject))) == SmallBody(issuer, subject)
  {
    var c := SmallCertificate(issuer, subject);
    CommonNameEncoded(issuer);
    CommonNameEncoded(subject);
    EncodeAllFive(c.serial, c.algorithm, IssuerElem(c), c.validity, SubjectElem(c));
    assert Encode(c.serial) == [0x02, 0x01, 0x05] && Encode(c.algorithm) == [0x30, 0x00] == Encode(c.validity);
    assert Encode(IssuerElem(c)) == [0x30, 0x0C] + CommonNameBytes(issuer);
    assert Encode(SubjectElem(c)) == [0x30, 0x0C] + CommonNameBytes(subject);
  }

  lemma {:induction false} SmallEncoded(issuer: byte, subject: byte)
    ensures var c, body := SmallCertificate(issuer, subject), SmallBody(issuer, subject);
            && ValidCertificate(c)
            && Encode(CertElem(c)) == [0x30, 0x2A] + ([0x30, 0x28] + ([0xA0, 0x03, 0x02, 0x01, 0x02] + body))
  {
    var c, body := SmallCertificate(issuer, subject), SmallBody(issuer, subject);
    CommonNameEncoded(issuer);
    CommonNameEncoded(subject);
    SmallBodyEncoded(issuer, subject);
    assert Encode(c.version[0]) == [0xA0, 0x03, 0x02, 0x01, 0x02] && body + [] == body;
    assert |body| == 35;
    var tbs := [0xA0, 0x03, 0x02, 0x01, 0x02] + body;
    assert TbsContent(c) == tbs && Encode(TbsElem(c)) == [0x30, 0x28] + tbs;
    assert ([0x30, 0x28] + tbs) + [] == [0x30, 0x28] + tbs;
  }

  /** A version 3 certificate of two common names, byte by byte: the first Name is the issuer, the other the subject. */
  lemma CertificateOnTheWire(issuer: byte, subject: byte, der: Bytes)
    requires der == [0x30, 0x2A] + ([0x30, 0x28] + ([0xA0, 0x03, 0x02, 0x01, 0x02] + ([0x02, 0x01, 0x05] +
      ([0x30, 0x00] +
      ([0x30, 0x0C] + [0x31, 0x0A, 0x30, 0x08, 0x06, 0x03, 0x55, 0x04, 0x03, 0x0C, 0x01, issuer] +
      ([0x30, 0x00] +
      ([0x30, 0x0C] + [0x31, 0x0A, 0x30, 0x08, 0x06, 0x03, 0x55, 0x04, 0x03, 0x0C, 0x01, subject])))))))
    ensures CertNamesOf(der) == Ok(Names([Pair([0x55, 0x04, 0x03], [issuer])], [Pair([0x55, 0x04, 0x03], [subject])]))
  {
    var c := SmallCertificate(issuer, subject);
    SmallEncoded(issuer, subject);
    CommonNameEncoded(issuer);
    CommonNameEncoded(subject);
    assert der + [] == der;
    CertEncoded(der, c, []);
  }
}
