/**
 * The TLV layer of the NDN packet format (section "TLV Encoding" of the NDN
 * Packet Format Specification v0.3): variable-size TLV-TYPE and
 * TLV-LENGTH numbers, one element, and a run of elements as a block's
 * value parses into.
 *
 * A VAR-NUMBER below 253 is one byte; otherwise a marker byte 253, 254 or
 * 255 is followed by the number in 2, 4 or 8 big-endian bytes. Reading
 * does not insist on the shortest form. A TLV-TYPE must lie in
 * 1 .. 2^32 - 1.
 */
module Tlv {

  import opened Ndn

  const TWO_16: nat := 0x1_0000
  const TWO_32: nat := 0x1_0000_0000
  const TWO_64: nat := 0x1_0000_0000_0000_0000

  /** A block: its TLV-TYPE and its value bytes. */
  datatype Element = Element(typ: nat, value: seq<Byte>)

  // ---------------------------------------------------------------------
  // Big-endian integers
  // ---------------------------------------------------------------------

  function Pow256(len: nat): (r: nat)
    ensures r >= 1
  {
    if len == 0 then 1 else 256 * Pow256(len - 1)
  }

  lemma Pow256Widths()
    ensures Pow256(2) == TWO_16 && Pow256(4) == TWO_32 && Pow256(8) == TWO_64
  {
    assert Pow256(1) == 256;
    assert Pow256(2) == TWO_16;
    assert Pow256(3) == 0x100_0000;
    assert Pow256(4) == TWO_32;
    assert Pow256(5) == 0x100_0000_0000;
    assert Pow256(6) == 0x1_0000_0000_0000;
    assert Pow256(7) == 0x100_0000_0000_0000;
  }

  /** n in len big-endian bytes. */
  function BigEndian(n: nat, len: nat): (b: seq<Byte>)
    requires n < Pow256(len)
    ensures |b| == len
  {
    if len == 0 then [] else BigEndian(n / 256, len - 1) + [(n % 256) as Byte]
  }

  /** The number that big-endian bytes spell. */
  function FromBigEndian(b: seq<Byte>): (n: nat)
    ensures n < Pow256(|b|)
  {
    if |b| == 0 then 0 else FromBigEndian(b[..|b| - 1]) * 256 + b[|b| - 1] as nat
  }

  lemma {:induction false} BigEndianRoundTrip(n: nat, len: nat)
    requires n < Pow256(len)
    ensures FromBigEndian(BigEndian(n, len)) == n
  {
    if len > 0 {
      var b := BigEndian(n, len);
      assert b[..|b| - 1] == BigEndian(n / 256, len - 1);
      BigEndianRoundTrip(n / 256, len - 1);
    }
  }

  // ---------------------------------------------------------------------
  // VAR-NUMBER
  // ---------------------------------------------------------------------

  /** The shortest VAR-NUMBER encoding of n. */
  function EncodeVarNumber(n: nat): (b: seq<Byte>)
    requires n < TWO_64
    ensures |b| == (if n < 253 then 1 else if n < TWO_16 then 3 else if n < TWO_32 then 5 else 9)
  {
    Pow256Widths();
    if n < 253 then [n as Byte]
    else if n < TWO_16 then [253] + BigEndian(n, 2)
    else if n < TWO_32 then [254] + BigEndian(n, 4)
    else [255] + BigEndian(n, 8)
  }

  /**
   * Read a VAR-NUMBER from the front of b: the number and how many bytes
   * it took, or None when b ends too early.
   */
  function DecodeVarNumber(b: seq<Byte>): (r: Option<(nat, nat)>)
    ensures r.Some? ==> 1 <= r.value.1 <= |b| && r.value.0 < TWO_64
  {
    Pow256Widths();
    if |b| == 0 then None
    else if b[0] < 253 then Some((b[0] as nat, 1))
    else if b[0] == 253 then (if |b| < 3 then None else Some((FromBigEndian(b[1..3]), 3)))
    else if b[0] == 254 then (if |b| < 5 then None else Some((FromBigEndian(b[1..5]), 5)))
    else (if |b| < 9 then None else Some((FromBigEndian(b[1..9]), 9)))
  }

  /** Reading back an encoded VAR-NUMBER gives the number and its length, whatever follows. */
  lemma VarNumberRoundTrip(n: nat, rest: seq<Byte>)
    requires n < TWO_64
    ensures DecodeVarNumber(EncodeVarNumber(n) + rest) == Some((n, |EncodeVarNumber(n)|))
  {
    var e := EncodeVarNumber(n);
    var b := e + rest;
    if n >= 253 {
      var len := |e| - 1;
      assert b[1..1 + len] == e[1..] == BigEndian(n, len);
      BigEndianRoundTrip(n, len);
    }
  }

  // ---------------------------------------------------------------------
  // Elements
  // ---------------------------------------------------------------------

  predicate ValidType(t: nat)
  {
    1 <= t < TWO_32
  }

  /** An element the encoder can write: a valid type and a value shorter than 2^64 bytes. */
  predicate Encodable(e: Element)
  {
    ValidType(e.typ) && |e.value| < TWO_64
  }

  /** TLV-TYPE, TLV-LENGTH, TLV-VALUE. */
  function EncodeElement(e: Element): (b: seq<Byte>)
    requires Encodable(e)
    ensures |b| > |e.value|
  {
    EncodeVarNumber(e.typ) + EncodeVarNumber(|e.value|) + e.value
  }

  /**
   * Read one element from the front of b: the element and how many bytes
   * it took, or None when the type is invalid or b ends too early.
   */
  function DecodeElement(b: seq<Byte>): (r: Option<(Element, nat)>)
    ensures r.Some? ==> 0 < r.value.1 <= |b| && Encodable(r.value.0)
  {
    match DecodeVarNumber(b)
      case None => None
      case Some((t, k)) =>
        if !ValidType(t) then None
        else match DecodeVarNumber(b[k..])
          case None => None
          case Some((len, m)) =>
            if |b| - k - m < len then None
            else Some((Element(t, b[k + m..k + m + len]), k + m + len))
  }

  /** Reading back an encoded element gives the element and its length, whatever follows. */
  lemma ElementRoundTrip(e: Element, rest: seq<Byte>)
    requires Encodable(e)
    ensures DecodeElement(EncodeElement(e) + rest) == Some((e, |EncodeElement(e)|))
  {
    var t := EncodeVarNumber(e.typ);
    var l := EncodeVarNumber(|e.value|);
    var tail := l + e.value + rest;
    var b := EncodeElement(e) + rest;
    assert b == t + tail;
    VarNumberRoundTrip(e.typ, tail);
    assert DecodeVarNumber(b) == Some((e.typ, |t|));
    assert b[|t|..] == tail;
    assert tail == l + (e.value + rest);
    VarNumberRoundTrip(|e.value|, e.value + rest);
    assert DecodeVarNumber(b[|t|..]) == Some((|e.value|, |l|));
    assert b[|t| + |l|..|t| + |l| + |e.value|] == e.value;
  }

  /** The elements of a block's value, in order; None when any is malformed or bytes are left over. */
  function ParseElements(b: seq<Byte>): (r: Option<seq<Element>>)
    ensures r.Some? ==> forall k :: 0 <= k < |r.value| ==> Encodable(r.value[k])
    decreases |b|
  {
    if |b| == 0 then Some([])
    else match DecodeElement(b)
      case None => None
      case Some((e, k)) =>
        match ParseElements(b[k..])
          case None => None
          case Some(es) => Some([e] + es)
  }

  predicate AllEncodable(es: seq<Element>)
  {
    forall k :: 0 <= k < |es| ==> Encodable(es[k])
  }

  /** The elements written one after the other. */
  function EncodeElements(es: seq<Element>): seq<Byte>
    requires AllEncodable(es)
  {
    if |es| == 0 then [] else EncodeElement(es[0]) + EncodeElements(es[1..])
  }

  /** A run of encoded elements parses back into exactly those elements. */
  lemma {:induction false} ElementsRoundTrip(es: seq<Element>)
    requires AllEncodable(es)
    ensures ParseElements(EncodeElements(es)) == Some(es)
  {
    if |es| > 0 {
      var b := EncodeElements(es);
      var head := EncodeElement(es[0]);
      ElementRoundTrip(es[0], EncodeElements(es[1..]));
      assert b[|head|..] == EncodeElements(es[1..]);
      ElementsRoundTrip(es[1..]);
      assert [es[0]] + es[1..] == es;
    }
  }

  /** Parsing a non-empty block reads its first element and goes on after it. */
  lemma ParseFront(b: seq<Byte>)
    requires |b| > 0
    ensures DecodeElement(b).None? ==> ParseElements(b).None?
    ensures DecodeElement(b).Some? ==> ParseElements(b) == match ParseElements(b[DecodeElement(b).value.1..])
              case None => None
              case Some(es) => Some([DecodeElement(b).value.0] + es)
  {
  }

  /** A block whose first element ends at k parses as that element followed by what comes after k parses to. */
  lemma ParseAfter(b: seq<Byte>, e: Element, k: nat, rest: seq<Byte>)
    requires DecodeElement(b) == Some((e, k)) && k <= |b| && b[k..] == rest
    ensures ParseElements(b) == match ParseElements(rest)
              case None => None
              case Some(es) => Some([e] + es)
  {
  }

  /** An encoded element in front of any bytes parses as that element followed by what the bytes parse to. */
  lemma ParseCons(e: Element, rest: seq<Byte>)
    requires Encodable(e)
    ensures ParseElements(EncodeElement(e) + rest) == match ParseElements(rest)
              case None => None
              case Some(es) => Some([e] + es)
  {
    ElementRoundTrip(e, rest);
    assert (EncodeElement(e) + rest)[|EncodeElement(e)|..] == rest;
  }

  /** Encoding a run of elements distributes over concatenation. */
  lemma {:induction false} EncodeElementsAppend(a: seq<Element>, b: seq<Element>)
    requires AllEncodable(a) && AllEncodable(b)
    ensures AllEncodable(a + b) && EncodeElements(a + b) == EncodeElements(a) + EncodeElements(b)
  {
    if |a| > 0 {
      assert (a + b)[0] == a[0] && (a + b)[1..] == a[1..] + b;
      EncodeElementsAppend(a[1..], b);
      assert EncodeElements(a + b) == EncodeElement(a[0]) + EncodeElements(a[1..] + b);
      assert EncodeElements(a) == EncodeElement(a[0]) + EncodeElements(a[1..]);
    } else {
      assert a + b == b;
    }
  }

  /** An element inserted into a run of writable elements leaves it writable; splitting there loses nothing. */
  lemma InsertEncodable(es: seq<Element>, k: nat, e: Element)
    requires AllEncodable(es) && Encodable(e) && k <= |es|
    ensures es[..k] + es[k..] == es
    ensures AllEncodable(es[..k] + [e] + es[k..])
  {
    assert es[..k] + es[k..] == es;
    assert AllEncodable(es[..k]) && AllEncodable([e]) && AllEncodable(es[k..]);
    AppendEncodable(es[..k], [e]);
    AppendEncodable(es[..k] + [e], es[k..]);
  }

  lemma AppendEncodable(a: seq<Element>, b: seq<Element>)
    requires AllEncodable(a) && AllEncodable(b)
    ensures AllEncodable(a + b)
  {
    forall j | 0 <= j < |a + b| ensures Encodable((a + b)[j]) {
      if j < |a| {
        assert (a + b)[j] == a[j];
      } else {
        assert (a + b)[j] == b[j - |a|];
      }
    }
  }

  /** Elements each drawn from a run of writable elements are writable. */
  lemma DrawnEncodable(es: seq<Element>, from: seq<Element>)
    requires AllEncodable(from) && forall k :: 0 <= k < |es| ==> es[k] in from
    ensures AllEncodable(es)
  {
    forall k | 0 <= k < |es| ensures Encodable(es[k]) {
      var j :| 0 <= j < |from| && from[j] == es[k];
    }
  }
}
