/**
 The hand-written DER encoders of the self-signed certificate, against strict parsers that
 accept only the distinguished encoding of X.690.
 */
module Der {
  import opened Wrappers
  import opened Numerals

  const WORD: nat := 0x1_0000_0000

  /** The digits of `v` without leading zeros; zero is one digit. */
  function MinDigits(v: nat, base: nat): (ds: seq<nat>)
    requires base > 1
    ensures |ds| > 0 && AllBelow(ds, base)
    decreases v
  {
    if v < base then [v]
    else
      QuotientShrinks(v, base);
      MinDigits(Quotient(v, base), base) + [v % base]
  }

  lemma QuotientShrinks(v: nat, base: nat)
    requires base > 1 && v >= base
    ensures 0 < Quotient(v, base) < v
  {
    var q := Quotient(v, base);
    assert base * q > 0;
    assert q > 0;
    assert base * q == q + (base - 1) * q;
    MulMonotone(q, 1, base - 1);
    assert (base - 1) * q == q * (base - 1);
  }

  lemma {:induction false} MinDigitsValue(v: nat, base: nat)
    requires base > 1
    ensures Value(MinDigits(v, base), base) == v
    ensures v > 0 ==> MinDigits(v, base)[0] > 0
    decreases v
  {
    if v < base {
      assert [v][..0] == [];
    } else {
      QuotientShrinks(v, base);
      var q := Quotient(v, base);
      MinDigitsValue(q, base);
      ValueAppend(MinDigits(q, base), v % base, base);
      assert base * q == q * base;
    }
  }

  /** A digit string without a leading zero is the one its value has. */
  lemma {:induction false} MinDigitsUnique(ds: seq<nat>, base: nat)
    requires base > 1 && |ds| > 0 && AllBelow(ds, base) && (|ds| == 1 || ds[0] > 0)
    ensures MinDigits(Value(ds, base), base) == ds
  {
    var front, d := ds[..|ds| - 1], ds[|ds| - 1];
    if |ds| == 1 {
      assert Value(front, base) == 0;
    } else {
      MinDigitsUnique(front, base);
      LeadingPositive(front, base);
      var q := Value(front, base);
      DivModOf(q, d, base);
      MulMonotone(base, 1, q);
      assert q * base == base * q;
      assert ds == front + [d];
    }
  }

  lemma {:induction false} LeadingPositive(ds: seq<nat>, base: nat)
    requires base > 1 && |ds| > 0 && ds[0] > 0
    ensures Value(ds, base) > 0
  {
    if |ds| > 1 {
      LeadingPositive(ds[..|ds| - 1], base);
      MulPositive(Value(ds[..|ds| - 1], base), base);
    }
  }

  lemma {:induction false} MinDigitsLength(v: nat, base: nat, n: nat)
    requires base > 1 && n > 0 && v < Pow(base, n)
    ensures |MinDigits(v, base)| <= n
    decreases n
  {
    assert Pow(base, 1) == base * Pow(base, 0);
    if v >= base {
      QuotientShrinks(v, base);
      QuotientBelow(v, base, Pow(base, n - 1));
      MinDigitsLength(Quotient(v, base), base, n - 1);
    }
  }

  // --------------------------------------------------------------------- lengths

  /** asn1Length: `>>>` takes its operand modulo 2^32. */
  function LengthOctets(n: nat): (bs: seq<byte>) {
    if n < 128 then [n]
    else
      var ds := MinDigits(n % WORD, 256);
      WordLength(n % WORD);
      [0x80 + |ds|] + ds
  }

  lemma WordLength(v: nat)
    requires v < WORD
    ensures |MinDigits(v, 256)| <= 4
  {
    assert Pow(256, 2) == 0x1_0000;
    assert Pow(256, 4) == WORD;
    MinDigitsLength(v, 256, 4);
  }

  /** The digits still to be split off, before those already there. */
  function Peeled(left: nat, base: nat, digits: seq<nat>): seq<nat>
    requires base > 1
  {
    if left == 0 then digits else MinDigits(left, base) + digits
  }

  lemma PeelOne(left: nat, base: nat, digits: seq<nat>)
    requires base > 1
    ensures left / base >= 0
    ensures left > 0 ==> left / base < left
    ensures Peeled(left / base, base, [left % base] + digits) == MinDigits(left, base) + digits
  {
    if left < base {
      DivModOf(0, left, base);
    } else {
      QuotientShrinks(left, base);
    }
  }

  lemma LowBits(n: nat, base: nat, k: nat)
    requires base > 0 && WORD == base * k
    ensures n % WORD % base == n % base
  {
    var q := Quotient(n, WORD);
    assert base * (k * q) == base * k * q;
    ModOfMultiple(n % WORD, base, k * q);
  }

  lemma WordOf(n: nat)
    ensures 0 <= n % WORD < WORD && (n < WORD ==> n % WORD == n)
  {
  }

  /** One round of the encoders' loop, whose shift first reduces modulo 2^32. */
  lemma PeelStep(start: nat, left: nat, base: nat, k: nat, digits: seq<nat>)
    requires 1 < base && WORD == base * k && left > 0
    requires digits == [] ==> left == start
    requires digits != [] ==> left < WORD && Peeled(left, base, digits) == MinDigits(start % WORD, base)
    ensures 0 <= left % WORD / base < WORD
    ensures left < WORD ==> left % WORD / base < left
    ensures Peeled(left % WORD / base, base, [left % base] + digits) == MinDigits(start % WORD, base)
  {
    PeelOne(left % WORD, base, digits);
    LowBits(left, base, k);
    WordOf(left);
    if digits == [] {
      assert MinDigits(start % WORD, base) + digits == MinDigits(start % WORD, base);
    }
  }

  method EncodeLength(n: nat) returns (octets: seq<byte>)
    ensures octets == LengthOctets(n)
  {
    if n < 128 {
      return [n];
    }
    var bytes: seq<byte>, left: nat := [], n;
    while left > 0
      invariant bytes == [] ==> left == n
      invariant bytes != [] ==> left < WORD && Peeled(left, 256, bytes) == MinDigits(n % WORD, 256)
      decreases bytes == [], left
    {
      PeelStep(n, left, 256, 0x100_0000, bytes);
      bytes := [left % 256] + bytes;
      left := left % WORD / 256;
    }
    WordLength(n % WORD);
    octets := [0x80 + |bytes|] + bytes;
  }

  /** X.690, sections 8.1.3 and 10.1: the definite form in the fewest octets. */
  function ParseLength(bs: seq<byte>): Option<(nat, seq<byte>)> {
    if bs == [] then None
    else if bs[0] < 128 then Some((bs[0], bs[1..]))
    else
      var k := bs[0] - 128;
      if k == 0 || k == 127 || |bs| < 1 + k || bs[1] == 0 then None
      else
        var n := Value(bs[1..1 + k], 256);
        if n < 128 then None else Some((n, bs[1 + k..]))
  }

  /** A length is read back exactly when it is below 2^32. */
  lemma LengthReadBackIff(n: nat, rest: seq<byte>)
    ensures ParseLength(LengthOctets(n) + rest) == Some((n, rest)) <==> n < WORD
  {
    var bs := LengthOctets(n) + rest;
    if n < 128 {
      assert bs[1..] == rest;
    } else {
      var ds := MinDigits(n % WORD, 256);
      WordLength(n % WORD);
      MinDigitsValue(n % WORD, 256);
      assert bs[1..1 + |ds|] == ds && bs[1 + |ds|..] == rest;
    }
  }

  lemma LongFormCanonical(ds: seq<byte>)
    requires |ds| > 0 && ds[0] > 0 && 128 <= Value(ds, 256) < WORD
    ensures LengthOctets(Value(ds, 256)) == [0x80 + |ds|] + ds
  {
    MinDigitsUnique(ds, 256);
    LongForm(Value(ds, 256));
  }

  lemma LongForm(n: nat)
    requires 128 <= n < WORD
    ensures LengthOctets(n) == [0x80 + |MinDigits(n, 256)|] + MinDigits(n, 256)
  {
    assert n % WORD == n;
  }

  /** Only the encoder's octets are accepted for a length below 2^32. */
  lemma LengthCanonical(bs: seq<byte>)
    requires ParseLength(bs).Some? && ParseLength(bs).value.0 < WORD
    ensures bs == LengthOctets(ParseLength(bs).value.0) + ParseLength(bs).value.1
  {
    if bs[0] < 128 {
      assert bs == [bs[0]] + bs[1..];
    } else {
      var k := bs[0] - 128;
      LongFormCanonical(bs[1..1 + k]);
      assert bs == [bs[0]] + bs[1..1 + k] + bs[1 + k..];
    }
  }

  // ------------------------------------------------------------------- elements

  datatype Element = Element(tag: byte, body: seq<byte>)

  /** asn1Tag. */
  function Tlv(tag: byte, body: seq<byte>): seq<byte> {
    [tag] + LengthOctets(|body|) + body
  }

  function ParseTlv(bs: seq<byte>): (r: Option<(Element, seq<byte>)>)
    ensures r.Some? ==> |r.value.1| < |bs|
  {
    if bs == [] then None
    else
      var l := ParseLength(bs[1..]);
      if l.None? || |l.value.1| < l.value.0 then None
      else Some((Element(bs[0], l.value.1[..l.value.0]), l.value.1[l.value.0..]))
  }

  lemma ReadLength(bs: seq<byte>)
    ensures ParseTlv(bs).Some? ==>
              var (e, rest) := ParseTlv(bs).value;
              bs != [] && ParseLength(bs[1..]) == Some((|e.body|, e.body + rest))
  {
    if ParseTlv(bs).Some? {
      var (n, behind) := ParseLength(bs[1..]).value;
      assert behind == behind[..n] + behind[n..];
    }
  }

  /** Tag, body and the bytes behind are recovered exactly when the body is below 2^32 bytes. */
  lemma TlvReadBackIff(tag: byte, body: seq<byte>, rest: seq<byte>)
    ensures ParseTlv(Tlv(tag, body) + rest) == Some((Element(tag, body), rest)) <==> |body| < WORD
  {
    var bs := Tlv(tag, body) + rest;
    assert bs[1..] == LengthOctets(|body|) + (body + rest);
    LengthReadBackIff(|body|, body + rest);
    if |body| < WORD {
      assert (body + rest)[..|body|] == body && (body + rest)[|body|..] == rest;
    }
    ReadLength(bs);
  }

  /** Only the encoder's bytes are read as an element. */
  lemma TlvCanonical(bs: seq<byte>)
    requires ParseTlv(bs).Some? && |bs| < WORD
    ensures var (e, rest) := ParseTlv(bs).value; bs == Tlv(e.tag, e.body) + rest
  {
    var (e, rest) := ParseTlv(bs).value;
    var tail := bs[1..];
    var (n, behind) := ParseLength(tail).value;
    LengthCanonical(tail);
    assert behind == behind[..n] + behind[n..];
    TlvLayout(bs[0], LengthOctets(n), behind[..n], behind[n..]);
    assert bs == [bs[0]] + tail;
  }

  lemma TlvLayout(tag: byte, length: seq<byte>, body: seq<byte>, rest: seq<byte>)
    ensures [tag] + (length + (body + rest)) == [tag] + length + body + rest
  {
  }

  /** A run of elements, to the last byte. */
  function ParseAll(bs: seq<byte>): Option<seq<Element>>
    decreases |bs|
  {
    if bs == [] then Some([])
    else
      var first := ParseTlv(bs);
      if first.None? then None
      else
        var others := ParseAll(first.value.1);
        if others.None? then None else Some([first.value.0] + others.value)
  }

  function Concat(es: seq<Element>): seq<byte> {
    if es == [] then [] else Tlv(es[0].tag, es[0].body) + Concat(es[1..])
  }

  /** Any run of elements of ordinary size is read back element by element. */
  lemma {:induction false} ConcatReadBack(es: seq<Element>)
    requires forall i | 0 <= i < |es| :: |es[i].body| < WORD
    ensures ParseAll(Concat(es)) == Some(es)
  {
    if es != [] {
      TlvReadBackIff(es[0].tag, es[0].body, Concat(es[1..]));
      ConcatReadBack(es[1..]);
      assert es == [es[0]] + es[1..];
    }
  }

  // -------------------------------------------------------------------- integers

  /** The contents octets of asn1Integer. */
  function IntegerBody(value: seq<byte>): seq<byte> {
    if |value| > 1 && value[0] == 0 && value[1] < 128 then IntegerBody(value[1..])
    else if |value| > 0 && value[0] >= 128 then [0] + value
    else value
  }

  method EncodeInteger(value: seq<byte>) returns (der: seq<byte>)
    ensures der == Tlv(0x02, IntegerBody(value))
  {
    var v := value;
    while |v| > 1 && v[0] == 0 && v[1] < 128
      invariant IntegerBody(v) == IntegerBody(value)
      decreases |v|
    {
      v := v[1..];
    }
    if |v| > 0 && v[0] >= 128 {
      v := [0] + v;
    }
    der := Tlv(0x02, v);
  }

  /** X.690, section 8.3: at least one octet, the first nine bits neither all zero nor all one. */
  predicate WellFormedInteger(body: seq<byte>) {
    |body| > 0 && (|body| > 1 ==> !(body[0] == 0 && body[1] < 128) && !(body[0] == 255 && body[1] >= 128))
  }

  predicate NonNegative(body: seq<byte>) {
    |body| > 0 && body[0] < 128
  }

  lemma {:induction false} LeadingZero(ds: seq<nat>, base: nat)
    ensures Value([0] + ds, base) == Value(ds, base)
  {
    if ds == [] {
      assert ([0] + ds)[..0] == [];
    } else {
      var front := ds[..|ds| - 1];
      LeadingZero(front, base);
      assert ([0] + ds)[..|ds|] == [0] + front;
    }
  }

  /** A non-empty buffer becomes the minimal non-negative integer of its value, the empty one no integer at all. */
  lemma {:induction false} IntegerMeaning(value: seq<byte>)
    ensures WellFormedInteger(IntegerBody(value)) <==> value != []
    ensures value != [] ==> NonNegative(IntegerBody(value))
    ensures Value(IntegerBody(value), 256) == Value(value, 256)
    decreases |value|
  {
    if |value| > 1 && value[0] == 0 && value[1] < 128 {
      IntegerMeaning(value[1..]);
      LeadingZero(value[1..], 256);
      assert value == [0] + value[1..];
    } else {
      LeadingZero(value, 256);
    }
  }

  /** Without the sign octet. */
  function Stripped(a: seq<nat>): seq<nat>
    requires |a| > 0
  {
    if |a| > 1 && a[0] == 0 then a[1..] else a
  }

  /** A minimal non-negative integer is its value's digits, behind a sign octet if they need one. */
  lemma MinimalIsDigits(a: seq<byte>)
    requires WellFormedInteger(a) && NonNegative(a)
    ensures var ds := MinDigits(Value(a, 256), 256); a == if ds[0] >= 128 then [0] + ds else ds
  {
    var x := Stripped(a);
    if |a| > 1 && a[0] == 0 {
      LeadingZero(x, 256);
      assert a == [0] + x;
    }
    MinDigitsUnique(x, 256);
  }

  lemma MinimalUnique(a: seq<byte>, b: seq<byte>)
    requires WellFormedInteger(a) && NonNegative(a) && WellFormedInteger(b) && NonNegative(b)
    requires Value(a, 256) == Value(b, 256)
    ensures a == b
  {
    MinimalIsDigits(a);
    MinimalIsDigits(b);
  }

  /** Two serial numbers get the same encoding exactly when they are the same number. */
  lemma IntegerInjective(a: seq<byte>, b: seq<byte>)
    requires a != [] && b != []
    ensures IntegerBody(a) == IntegerBody(b) <==> Value(a, 256) == Value(b, 256)
  {
    IntegerMeaning(a);
    IntegerMeaning(b);
    if Value(a, 256) == Value(b, 256) {
      MinimalUnique(IntegerBody(a), IntegerBody(b));
    }
  }

  // ---------------------------------------------------------- object identifiers

  /** One arc in groups of seven bits, all but the last with the top bit set. */
  function ArcOctets(p: nat): (bs: seq<byte>) {
    Continued(MinDigits(if p < 128 then p else p % WORD, 128))
  }

  function Continued(ds: seq<nat>): (bs: seq<byte>)
    requires AllBelow(ds, 128)
    ensures |bs| == |ds|
  {
    seq(|ds|, i requires 0 <= i < |ds| => if i < |ds| - 1 then ds[i] + 0x80 else ds[i])
  }

  function ArcsOctets(arcs: seq<nat>): seq<byte> {
    if arcs == [] then [] else ArcsOctets(arcs[..|arcs| - 1]) + ArcOctets(arcs[|arcs| - 1])
  }

  /** The contents octets of asn1Oid; the first one is stored in a byte, so modulo 256. */
  function OidBody(parts: seq<nat>): seq<byte>
    requires |parts| >= 2
  {
    [(parts[0] * 40 + parts[1]) % 256] + ArcsOctets(parts[2..])
  }

  method EncodeArc(p: nat) returns (bytes: seq<byte>)
    ensures bytes == ArcOctets(p)
  {
    if p < 128 {
      return [p];
    }
    var left: nat := p;
    bytes := [];
    while left > 0
      invariant AllBelow(bytes, 128)
      invariant bytes == [] ==> left == p
      invariant bytes != [] ==> left < WORD && Peeled(left, 128, bytes) == MinDigits(p % WORD, 128)
      decreases bytes == [], left
    {
      PeelStep(p, left, 128, 0x200_0000, bytes);
      bytes := [left % 128] + bytes;
      left := left % WORD / 128;
    }
    bytes := MarkContinued(bytes);
  }

  method MarkContinued(ds: seq<byte>) returns (bytes: seq<byte>)
    requires AllBelow(ds, 128)
    ensures bytes == Continued(ds)
  {
    bytes := ds;
    for i := 0 to if |ds| == 0 then 0 else |ds| - 1
      invariant |bytes| == |ds|
      invariant forall j | 0 <= j < |ds| :: bytes[j] == if j < i then ds[j] + 0x80 else ds[j]
    {
      bytes := bytes[i := bytes[i] + 0x80];
    }
  }

  method EncodeOid(parts: seq<nat>) returns (der: seq<byte>)
    requires |parts| >= 2
    ensures der == Tlv(0x06, OidBody(parts))
  {
    var out: seq<byte> := [(parts[0] * 40 + parts[1]) % 256];
    var rest := parts[2..];
    for k := 0 to |rest|
      invariant out == [(parts[0] * 40 + parts[1]) % 256] + ArcsOctets(rest[..k])
    {
      var bytes := EncodeArc(rest[k]);
      out := out + bytes;
      assert rest[..k + 1][..k] == rest[..k];
    }
    assert rest[..|rest|] == rest;
    der := Tlv(0x06, out);
  }

  /** X.690, section 8.19: subidentifiers in base 128, none starting with octet 80. */
  function ParseArcs(bs: seq<byte>, acc: nat, started: bool): (r: Option<seq<nat>>) {
    if bs == [] then if started then None else Some([])
    else if !started && bs[0] == 0x80 then None
    else if bs[0] >= 0x80 then ParseArcs(bs[1..], acc * 128 + (bs[0] - 0x80), true)
    else
      var others := ParseArcs(bs[1..], 0, false);
      if others.None? then None else Some([acc * 128 + bs[0]] + others.value)
  }

  /** The first subidentifier holds the first two arcs. */
  function ParseOid(body: seq<byte>): Option<seq<nat>> {
    var arcs := ParseArcs(body, 0, false);
    if arcs.None? || arcs.value == [] then None
    else
      var x := if arcs.value[0] < 80 then arcs.value[0] / 40 else 2;
      Some([x, arcs.value[0] - 40 * x] + arcs.value[1..])
  }

  predicate Encodable(parts: seq<nat>) {
    && |parts| >= 2
    && parts[0] <= 2
    && (parts[0] < 2 ==> parts[1] < 40)
    && parts[0] * 40 + parts[1] < 128
    && forall i | 2 <= i < |parts| :: parts[i] < WORD
  }

  function Wrapped(arcs: seq<nat>): seq<nat> {
    seq(|arcs|, i requires 0 <= i < |arcs| => if arcs[i] < 128 then arcs[i] else arcs[i] % WORD)
  }

  lemma {:induction false} ParseContinued(ds: seq<nat>, rest: seq<byte>, acc: nat, started: bool)
    requires |ds| > 0 && AllBelow(ds, 128) && (started || |ds| == 1 || ds[0] > 0)
    ensures ParseArcs(Continued(ds) + rest, acc, started)
            == (var others := ParseArcs(rest, 0, false);
                if others.None? then None else Some([ValueFrom(acc, ds)] + others.value))
  {
    var bs := Continued(ds) + rest;
    assert bs[0] == if |ds| > 1 then ds[0] + 0x80 else ds[0];
    if |ds| == 1 {
      assert bs[1..] == rest;
      assert ds[1..] == [];
    } else {
      assert bs[1..] == Continued(ds[1..]) + rest;
      ParseContinued(ds[1..], rest, acc * 128 + ds[0], true);
    }
  }

  /** Reading digits left to right onto an accumulator. */
  function ValueFrom(acc: nat, ds: seq<nat>): nat
    decreases |ds|
  {
    if ds == [] then acc else ValueFrom(acc * 128 + ds[0], ds[1..])
  }

  lemma {:induction false} ValueFromLast(acc: nat, ds: seq<nat>)
    requires |ds| > 0
    ensures ValueFrom(acc, ds) == ValueFrom(acc, ds[..|ds| - 1]) * 128 + ds[|ds| - 1]
    decreases |ds|
  {
    if |ds| == 1 {
      assert ds[1..] == [] && ds[..0] == [];
    } else {
      ValueFromLast(acc * 128 + ds[0], ds[1..]);
      assert ds[1..][..|ds| - 2] == ds[..|ds| - 1][1..];
    }
  }

  lemma {:induction false} ValueFromIsValue(ds: seq<nat>)
    ensures ValueFrom(0, ds) == Value(ds, 128)
  {
    if ds != [] {
      ValueFromLast(0, ds);
      ValueFromIsValue(ds[..|ds| - 1]);
    }
  }

  lemma ParseArc(p: nat, rest: seq<byte>)
    ensures ParseArcs(ArcOctets(p) + rest, 0, false)
            == (var others := ParseArcs(rest, 0, false);
                if others.None? then None else Some([if p < 128 then p else p % WORD] + others.value))
  {
    var v := if p < 128 then p else p % WORD;
    MinDigitsValue(v, 128);
    ValueFromIsValue(MinDigits(v, 128));
    ParseContinued(MinDigits(v, 128), rest, 0, false);
  }

  lemma WrappedAppend(front: seq<nat>, p: nat, others: seq<nat>)
    ensures Wrapped(front) + ([if p < 128 then p else p % WORD] + others) == Wrapped(front + [p]) + others
  {
  }

  lemma ArcsOctetsAppend(front: seq<nat>, p: nat, rest: seq<byte>)
    ensures ArcsOctets(front + [p]) + rest == ArcsOctets(front) + (ArcOctets(p) + rest)
  {
    assert (front + [p])[..|front|] == front;
  }

  lemma {:induction false} ParseArcsOctets(arcs: seq<nat>, rest: seq<byte>)
    requires ParseArcs(rest, 0, false).Some?
    ensures ParseArcs(ArcsOctets(arcs) + rest, 0, false) == Some(Wrapped(arcs) + ParseArcs(rest, 0, false).value)
  {
    var others := ParseArcs(rest, 0, false).value;
    if arcs == [] {
      assert ArcsOctets(arcs) + rest == rest;
      assert Wrapped(arcs) + others == others;
    } else {
      var front, p := arcs[..|arcs| - 1], arcs[|arcs| - 1];
      assert front + [p] == arcs;
      ParseArc(p, rest);
      ParseArcsOctets(front, ArcOctets(p) + rest);
      ArcsOctetsAppend(front, p, rest);
      WrappedAppend(front, p, others);
    }
  }

  /** Octets that end a subidentifier. */
  function Ends(bs: seq<byte>): nat {
    if bs == [] then 0 else (if bs[0] < 128 then 1 else 0) + Ends(bs[1..])
  }

  lemma {:induction false} OneArcPerEnd(bs: seq<byte>, acc: nat, started: bool)
    ensures var r := ParseArcs(bs, acc, started); r.Some? ==> |r.value| == Ends(bs)
  {
    if bs != [] {
      if bs[0] >= 0x80 {
        OneArcPerEnd(bs[1..], acc * 128 + (bs[0] - 0x80), true);
      } else {
        OneArcPerEnd(bs[1..], 0, false);
      }
    }
  }

  /** The arcs come back exactly when the first two fit one octet as X.690 packs them and the others 32 bits. */
  lemma OidReadBackIff(parts: seq<nat>)
    requires |parts| >= 2
    ensures ParseOid(OidBody(parts)) == Some(parts) <==> Encodable(parts)
  {
    var first := (parts[0] * 40 + parts[1]) % 256;
    var rest := parts[2..];
    var tail := ArcsOctets(rest);
    ParseArcsOctets(rest, []);
    assert tail + [] == tail && Wrapped(rest) + [] == Wrapped(rest);
    assert ([first] + tail)[1..] == tail;
    OneArcPerEnd(tail, 0, false);
    OneArcPerEnd([first] + tail, 0, false);
    if first < 128 {
      assert ParseArcs([first] + tail, 0, false) == Some([first] + Wrapped(rest));
      if Encodable(parts) {
        Encoded(parts);
      } else {
        NotEncodable(parts);
      }
    } else {
      assert Ends([first] + tail) == |rest|;
      FewerArcs(parts);
    }
  }

  lemma FewerArcs(parts: seq<nat>)
    requires |parts| >= 2
    requires var r := ParseArcs(OidBody(parts), 0, false); r.Some? ==> |r.value| == |parts| - 2
    ensures ParseOid(OidBody(parts)) != Some(parts)
  {
  }

  lemma Encoded(parts: seq<nat>)
    requires Encodable(parts)
    requires ParseArcs(OidBody(parts), 0, false) == Some([(parts[0] * 40 + parts[1]) % 256] + Wrapped(parts[2..]))
    ensures ParseOid(OidBody(parts)) == Some(parts)
  {
    assert Wrapped(parts[2..]) == parts[2..];
    assert parts == [parts[0], parts[1]] + parts[2..];
  }

  lemma NotEncodable(parts: seq<nat>)
    requires |parts| >= 2 && !Encodable(parts) && (parts[0] * 40 + parts[1]) % 256 < 128
    requires ParseArcs(OidBody(parts), 0, false) == Some([(parts[0] * 40 + parts[1]) % 256] + Wrapped(parts[2..]))
    ensures ParseOid(OidBody(parts)) != Some(parts)
  {
    var arcs := ParseArcs(OidBody(parts), 0, false).value;
    var x := if arcs[0] < 80 then arcs[0] / 40 else 2;
    var back := [x, arcs[0] - 40 * x] + arcs[1..];
    assert ParseOid(OidBody(parts)) == Some(back);
    if i :| 2 <= i < |parts| && parts[i] >= WORD {
      assert back[i] == Wrapped(parts[2..])[i - 2];
    }
    assert back[0] == x && back[1] == arcs[0] - 40 * x;
  }

  // ----------------------------------------------------------------- certificate

  const SHA256_RSA: seq<nat> := [1, 2, 840, 113549, 1, 1, 11]
  const COMMON_NAME: seq<nat> := [2, 5, 4, 3]

  datatype Time = Time(year: nat, month: nat, day: nat, hour: nat, minute: nat, second: nat)

  predicate ValidTime(t: Time) {
    t.month < 100 && t.day < 100 && t.hour < 100 && t.minute < 100 && t.second < 100
  }

  function TwoDigits(n: nat): seq<byte>
    requires n < 100
  {
    [48 + n / 10, 48 + n % 10]
  }

  /** asn1UtcTime keeps the last two digits of the year. */
  function UtcTimeBody(t: Time): seq<byte>
    requires ValidTime(t)
  {
    TwoDigits(t.year % 100) + TwoDigits(t.month) + TwoDigits(t.day)
    + TwoDigits(t.hour) + TwoDigits(t.minute) + TwoDigits(t.second) + [90]
  }

  function Number(bs: seq<byte>, at: nat): Option<nat>
    requires at + 2 <= |bs|
  {
    if 48 <= bs[at] < 58 && 48 <= bs[at + 1] < 58 then Some((bs[at] - 48) * 10 + (bs[at + 1] - 48)) else None
  }

  /** RFC 5280, section 4.1.2.5.1: a two-digit year below 50 is 20YY, any other 19YY. */
  function ParseUtcTime(bs: seq<byte>): Option<Time> {
    if |bs| != 13 || bs[12] != 90 then None
    else
      var y, mo, d := Number(bs, 0), Number(bs, 2), Number(bs, 4);
      var h, mi, s := Number(bs, 6), Number(bs, 8), Number(bs, 10);
      if y.None? || mo.None? || d.None? || h.None? || mi.None? || s.None? then None
      else Some(Time(if y.value < 50 then 2000 + y.value else 1900 + y.value, mo.value, d.value, h.value, mi.value, s.value))
  }

  /** A time is read back exactly when its year is between 1950 and 2049. */
  lemma UtcTimeReadBackIff(t: Time)
    requires ValidTime(t)
    ensures ParseUtcTime(UtcTimeBody(t)) == Some(t) <==> 1950 <= t.year < 2050
  {
    var bs := UtcTimeBody(t);
    assert Number(bs, 0) == Some(t.year % 100);
    assert Number(bs, 2) == Some(t.month) && Number(bs, 4) == Some(t.day);
    assert Number(bs, 6) == Some(t.hour) && Number(bs, 8) == Some(t.minute) && Number(bs, 10) == Some(t.second);
  }

  function Algorithm(): Element {
    Element(0x30, Concat([Element(0x06, OidBody(SHA256_RSA)), Element(0x05, [])]))
  }

  lemma OneByteArc(p: nat)
    requires p < 128
    ensures ArcOctets(p) == [p]
  {
  }

  lemma TwoByteArc(p: nat, high: nat, low: nat)
    requires p == high * 128 + low && 0 < high < 128 && low < 128
    ensures ArcOctets(p) == [high + 128, low]
  {
    ValueAppend([], high, 128);
    ValueAppend([high], low, 128);
    assert [] + [high] == [high] && [high] + [low] == [high, low];
    MinDigitsUnique([high, low], 128);
  }

  lemma ThreeByteArc(p: nat, high: nat, mid: nat, low: nat)
    requires p == (high * 128 + mid) * 128 + low && 0 < high < 128 && mid < 128 && low < 128
    ensures ArcOctets(p) == [high + 128, mid + 128, low]
  {
    ValueAppend([], high, 128);
    ValueAppend([high], mid, 128);
    ValueAppend([high, mid], low, 128);
    assert [] + [high] == [high] && [high] + [mid] == [high, mid] && [high, mid] + [low] == [high, mid, low];
    MinDigitsUnique([high, mid, low], 128);
  }

  lemma ArcsNext(arcs: seq<nat>, front: seq<nat>, p: nat, done: seq<byte>, more: seq<byte>)
    requires ArcsOctets(front) == done && ArcOctets(p) == more && arcs == front + [p]
    ensures ArcsOctets(arcs) == done + more
  {
    assert arcs[..|front|] == front;
  }

  lemma RsaArcs()
    ensures ArcsOctets([840, 113549]) == [0x86, 0x48, 0x86, 0xF7, 0x0D]
  {
    TwoByteArc(840, 6, 72);
    ThreeByteArc(113549, 6, 119, 13);
    ArcsNext([840], [], 840, [], [0x86, 0x48]);
    ArcsNext([840, 113549], [840], 113549, [0x86, 0x48], [0x86, 0xF7, 0x0D]);
  }

  /** sha256WithRSAEncryption, 1.2.840.113549.1.1.11, as section 8.19 of X.690 encodes it. */
  lemma SignatureOid()
    ensures OidBody(SHA256_RSA) == [0x2A, 0x86, 0x48, 0x86, 0xF7, 0x0D, 0x01, 0x01, 0x0B]
  {
    RsaArcs();
    OneByteArc(1);
    OneByteArc(11);
    var rsa: seq<byte> := [0x86, 0x48, 0x86, 0xF7, 0x0D];
    ArcsNext([840, 113549, 1], [840, 113549], 1, rsa, [1]);
    ArcsNext([840, 113549, 1, 1], [840, 113549, 1], 1, rsa + [1], [1]);
    ArcsNext([840, 113549, 1, 1, 11], [840, 113549, 1, 1], 11, rsa + [1] + [1], [11]);
    assert SHA256_RSA[2..] == [840, 113549, 1, 1, 11];
    assert rsa + [1] + [1] + [11] == [0x86, 0x48, 0x86, 0xF7, 0x0D, 1, 1, 11];
  }

  lemma NameArcs()
    ensures ArcsOctets([4, 3]) == [4, 3]
  {
    OneByteArc(4);
    OneByteArc(3);
    ArcsNext([4], [], 4, [], [4]);
    ArcsNext([4, 3], [4], 3, [4], [3]);
  }

  /** The common name attribute, 2.5.4.3. */
  lemma CommonNameOid()
    ensures OidBody(COMMON_NAME) == [0x55, 0x04, 0x03]
  {
    NameArcs();
    assert COMMON_NAME[2..] == [4, 3];
    assert [0x55] + [4, 3] == [0x55, 0x04, 0x03];
  }

  function NameCN(cn: seq<byte>): Element {
    Element(0x30, Concat([Element(0x31, Concat([Element(0x30, Concat([Element(0x06, OidBody(COMMON_NAME)), Element(0x0c, cn)]))]))]))
  }

  function Validity(notBefore: Time, notAfter: Time): Element
    requires ValidTime(notBefore) && ValidTime(notAfter)
  {
    Element(0x30, Concat([Element(0x17, UtcTimeBody(notBefore)), Element(0x17, UtcTimeBody(notAfter))]))
  }

  /** The six TBS fields, in order; the public key is an element the runtime exports. */
  function TbsFields(serial: seq<byte>, cn: seq<byte>, notBefore: Time, notAfter: Time, spki: Element): seq<Element>
    requires ValidTime(notBefore) && ValidTime(notAfter)
  {
    [Element(0x02, IntegerBody(serial)), Algorithm(), NameCN(cn), Validity(notBefore, notAfter), NameCN(cn), spki]
  }

  function CertificateParts(tbs: seq<Element>, signature: seq<byte>): seq<Element> {
    [Element(0x30, Concat(tbs)), Algorithm(), Element(0x03, [0] + signature)]
  }

  function Certificate(tbs: seq<Element>, signature: seq<byte>): seq<byte> {
    Tlv(0x30, Concat(CertificateParts(tbs, signature)))
  }

  lemma {:induction false} ConcatLonger(es: seq<Element>, i: nat)
    requires i < |es|
    ensures |es[i].body| < |Concat(es)|
  {
    if i > 0 {
      ConcatLonger(es[1..], i - 1);
    }
  }

  /** A run short enough is read back, since each of its elements is shorter still. */
  lemma RunReadBack(es: seq<Element>)
    requires |Concat(es)| < WORD
    ensures ParseAll(Concat(es)) == Some(es)
  {
    forall i | 0 <= i < |es|
      ensures |es[i].body| < WORD
    {
      ConcatLonger(es, i);
    }
    ConcatReadBack(es);
  }

  /** The certificate reads back as its three parts, and the first of them as its six fields. */
  lemma CertificateReadBack(tbs: seq<Element>, signature: seq<byte>)
    requires |Concat(CertificateParts(tbs, signature))| < WORD
    ensures ParseTlv(Certificate(tbs, signature)) == Some((Element(0x30, Concat(CertificateParts(tbs, signature))), []))
    ensures ParseAll(Concat(CertificateParts(tbs, signature))) == Some(CertificateParts(tbs, signature))
    ensures ParseAll(Concat(tbs)) == Some(tbs)
  {
    var parts := CertificateParts(tbs, signature);
    TlvReadBackIff(0x30, Concat(parts), []);
    assert Certificate(tbs, signature) + [] == Certificate(tbs, signature);
    RunReadBack(parts);
    ConcatLonger(parts, 0);
    RunReadBack(tbs);
  }

  /** Reading a name down to the bytes of its common name. */
  function ParseNameCN(name: Element): Option<seq<byte>> {
    var rdns := ParseAll(name.body);
    if name.tag != 0x30 || rdns.None? || |rdns.value| != 1 || rdns.value[0].tag != 0x31 then None
    else
      var atvs := ParseAll(rdns.value[0].body);
      if atvs.None? || |atvs.value| != 1 || atvs.value[0].tag != 0x30 then None
      else
        var pair := ParseAll(atvs.value[0].body);
        if pair.None? || |pair.value| != 2 || pair.value[0].tag != 0x06 || pair.value[1].tag != 0x0c
           || ParseOid(pair.value[0].body) != Some(COMMON_NAME) then None
        else Some(pair.value[1].body)
  }

  /** The common name comes back out of the issuer and the subject. */
  lemma NameReadBack(cn: seq<byte>)
    requires |NameCN(cn).body| < WORD
    ensures ParseNameCN(NameCN(cn)) == Some(cn)
  {
    var pair := [Element(0x06, OidBody(COMMON_NAME)), Element(0x0c, cn)];
    var atv := Element(0x30, Concat(pair));
    var rdn := Element(0x31, Concat([atv]));
    RunReadBack([rdn]);
    ConcatLonger([rdn], 0);
    RunReadBack([atv]);
    ConcatLonger([atv], 0);
    RunReadBack(pair);
    OidReadBackIff(COMMON_NAME);
  }

  lemma Sha256RsaReadBack()
    ensures ParseOid(OidBody(SHA256_RSA)) == Some(SHA256_RSA)
    ensures |OidBody(SHA256_RSA)| < WORD
  {
    OidReadBackIff(SHA256_RSA);
    OidLength(SHA256_RSA);
  }

  lemma PairReadBack(e: Element, f: Element)
    requires |e.body| < WORD && |f.body| < WORD
    ensures ParseAll(Concat([e, f])) == Some([e, f])
  {
    ConcatReadBack([e, f]);
  }

  /** The algorithm is the object identifier of sha256WithRSAEncryption followed by NULL. */
  lemma AlgorithmReadBack()
    ensures ParseAll(Algorithm().body) == Some([Element(0x06, OidBody(SHA256_RSA)), Element(0x05, [])])
    ensures ParseOid(OidBody(SHA256_RSA)) == Some(SHA256_RSA)
  {
    Sha256RsaReadBack();
    PairReadBack(Element(0x06, OidBody(SHA256_RSA)), Element(0x05, []));
  }

  lemma {:induction false} ArcsLength(arcs: seq<nat>)
    ensures |ArcsOctets(arcs)| <= 5 * |arcs|
  {
    if arcs != [] {
      var p := arcs[|arcs| - 1];
      ArcsLength(arcs[..|arcs| - 1]);
      assert Pow(128, 2) == 16384;
      assert Pow(128, 4) == 16384 * 16384;
      assert Pow(128, 5) == 128 * Pow(128, 4);
      MinDigitsLength(if p < 128 then p else p % WORD, 128, 5);
    }
  }

  lemma OidLength(parts: seq<nat>)
    requires |parts| >= 2
    ensures |OidBody(parts)| <= 1 + 5 * (|parts| - 2)
  {
    ArcsLength(parts[2..]);
  }

  // ------------------------------------------------------- reading a certificate

  datatype CertificateFields = CertificateFields(
    serial: nat, algorithm: seq<nat>, issuer: seq<byte>, notBefore: Time, notAfter: Time, subject: seq<byte>,
    key: Element, signedWith: seq<nat>, signature: seq<byte>)

  function ReadInteger(e: Element): Option<nat> {
    if e.tag == 0x02 && WellFormedInteger(e.body) && NonNegative(e.body) then Some(Value(e.body, 256)) else None
  }

  function ReadAlgorithm(e: Element): Option<seq<nat>> {
    var es := ParseAll(e.body);
    if e.tag == 0x30 && es.Some? && |es.value| == 2 && es.value[0].tag == 0x06 && es.value[1] == Element(0x05, [])
    then ParseOid(es.value[0].body)
    else None
  }

  function ReadTimes(e: Element): Option<(Time, Time)> {
    var es := ParseAll(e.body);
    if e.tag == 0x30 && es.Some? && |es.value| == 2 && es.value[0].tag == 0x17 && es.value[1].tag == 0x17
       && ParseUtcTime(es.value[0].body).Some? && ParseUtcTime(es.value[1].body).Some?
    then Some((ParseUtcTime(es.value[0].body).value, ParseUtcTime(es.value[1].body).value))
    else None
  }

  function ReadFields(es: seq<Element>, signedWith: seq<nat>, signature: seq<byte>): Option<CertificateFields> {
    if |es| != 6 then None
    else
      var serial, algorithm, issuer := ReadInteger(es[0]), ReadAlgorithm(es[1]), ParseNameCN(es[2]);
      var times, subject := ReadTimes(es[3]), ParseNameCN(es[4]);
      if serial.None? || algorithm.None? || issuer.None? || times.None? || subject.None? then None
      else
        Some(CertificateFields(serial.value, algorithm.value, issuer.value, times.value.0, times.value.1, subject.value,
                               es[5], signedWith, signature))
  }

  /** A whole certificate, strictly: every length, tag and number of parts as it should be, and nothing behind. */
  function ReadCertificate(bs: seq<byte>): Option<CertificateFields> {
    var outer := ParseTlv(bs);
    if outer.None? || outer.value.0.tag != 0x30 || outer.value.1 != [] then None
    else
      var parts := ParseAll(outer.value.0.body);
      if parts.None? || |parts.value| != 3 || parts.value[0].tag != 0x30 then None
      else
        var tbs, algorithm, bits := ParseAll(parts.value[0].body), ReadAlgorithm(parts.value[1]), parts.value[2];
        if tbs.None? || algorithm.None? || bits.tag != 0x03 || bits.body == [] || bits.body[0] != 0 then None
        else ReadFields(tbs.value, algorithm.value, bits.body[1..])
  }

  lemma ReadSerial(serial: seq<byte>)
    ensures ReadInteger(Element(0x02, IntegerBody(serial))) == if serial == [] then None else Some(Value(serial, 256))
  {
    IntegerMeaning(serial);
  }

  lemma ReadOwnAlgorithm()
    ensures ReadAlgorithm(Algorithm()) == Some(SHA256_RSA)
  {
    AlgorithmReadBack();
  }

  lemma UtcTimeParses(t: Time)
    requires ValidTime(t)
    ensures ParseUtcTime(UtcTimeBody(t)).Some?
  {
    var bs := UtcTimeBody(t);
    assert Number(bs, 0) == Some(t.year % 100);
    assert Number(bs, 2) == Some(t.month) && Number(bs, 4) == Some(t.day);
    assert Number(bs, 6) == Some(t.hour) && Number(bs, 8) == Some(t.minute) && Number(bs, 10) == Some(t.second);
  }

  lemma ReadValidity(a: Time, b: Time)
    requires ValidTime(a) && ValidTime(b)
    ensures ReadTimes(Validity(a, b)).Some?
    ensures ReadTimes(Validity(a, b)) == Some((a, b)) <==> 1950 <= a.year < 2050 && 1950 <= b.year < 2050
  {
    PairReadBack(Element(0x17, UtcTimeBody(a)), Element(0x17, UtcTimeBody(b)));
    UtcTimeParses(a);
    UtcTimeParses(b);
    UtcTimeReadBackIff(a);
    UtcTimeReadBackIff(b);
  }

  lemma ReadBuiltFields(serial: seq<byte>, cn: seq<byte>, a: Time, b: Time, key: Element, signature: seq<byte>)
    requires ValidTime(a) && ValidTime(b) && |NameCN(cn).body| < WORD
    ensures ReadFields(TbsFields(serial, cn, a, b, key), SHA256_RSA, signature)
            == Some(CertificateFields(Value(serial, 256), SHA256_RSA, cn, a, b, cn, key, SHA256_RSA, signature))
            <==> serial != [] && 1950 <= a.year < 2050 && 1950 <= b.year < 2050
  {
    ReadSerial(serial);
    ReadOwnAlgorithm();
    NameReadBack(cn);
    ReadValidity(a, b);
  }

  /**
   The built certificate reads back as what it was built from: the serial number, the
   algorithm, both names, both times, the key and the signature, exactly when the serial is
   not empty and both years are within the century of UTCTime.
   */
  lemma BuiltCertificateIff(serial: seq<byte>, cn: seq<byte>, a: Time, b: Time, key: Element, signature: seq<byte>)
    requires ValidTime(a) && ValidTime(b)
    requires |Concat(CertificateParts(TbsFields(serial, cn, a, b, key), signature))| < WORD
    ensures ReadCertificate(Certificate(TbsFields(serial, cn, a, b, key), signature))
            == Some(CertificateFields(Value(serial, 256), SHA256_RSA, cn, a, b, cn, key, SHA256_RSA, signature))
            <==> serial != [] && 1950 <= a.year < 2050 && 1950 <= b.year < 2050
  {
    var tbs := TbsFields(serial, cn, a, b, key);
    ConcatLonger(CertificateParts(tbs, signature), 0);
    ConcatLonger(tbs, 2);
    ReadBuiltFields(serial, cn, a, b, key, signature);
    ReadsAsFields(tbs, signature);
  }

  lemma ReadsAsFields(tbs: seq<Element>, signature: seq<byte>)
    requires |Concat(CertificateParts(tbs, signature))| < WORD
    ensures ReadCertificate(Certificate(tbs, signature)) == ReadFields(tbs, SHA256_RSA, signature)
  {
    CertificateReadBack(tbs, signature);
    ReadOwnAlgorithm();
    assert ([0] + signature)[1..] == signature;
  }
}
