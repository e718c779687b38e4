/**
 * The payload of a name advertisement on the wire, as TLV elements.
 *
 * A NameLsa block holds the common LSA header, one PrefixInfo element per
 * advertised prefix and one ServiceFunction element per service. A
 * ServiceFunction element holds the service name, the usage count and five
 * 8-byte doubles. The encoder writes the usage count as the TLV-LENGTH of
 * its UsageCount element and writes no value bytes after it, so the usage
 * count survives a round trip only when it is 0.
 *
 * The TLV-TYPE numbers of the NLSR-specific elements are not part of this
 * model. The values chosen here are distinct and each fits in one byte;
 * what a non-zero usage count decodes to depends on them, since the
 * UsageCount element swallows the Load element's type byte. Name is type 7 as in the
 * NDN packet format. The common LSA header is kept as opaque bytes, and a
 * PrefixInfo element uses a stand-in layout: Name, then Cost as 8
 * big-endian bytes, then a one-byte service flag.
 */
module NameLsaCodec {

  import opened Ndn
  import opened Tlv
  import opened Ieee

  const NAME_TYPE: nat := 7
  const LSA_TYPE: nat := 128
  const NAME_LSA_TYPE: nat := 137
  const PREFIX_INFO_TYPE: nat := 145
  const COST_TYPE: nat := 146
  const SERVICE_FLAG_TYPE: nat := 147
  const SERVICE_FUNCTION_TYPE: nat := 200
  const PROCESSING_TIME_TYPE: nat := 201
  const LOAD_TYPE: nat := 202
  const USAGE_COUNT_TYPE: nat := 203
  const PROCESSING_WEIGHT_TYPE: nat := 204
  const LOAD_WEIGHT_TYPE: nat := 205
  const USAGE_WEIGHT_TYPE: nat := 206

  newtype U32 = x: int | 0 <= x < 0x1_0000_0000

  /** One advertised prefix: its name, its advertised cost and whether a service backs it. */
  datatype PrefixInfo = PrefixInfo(name: Name, cost: nat, isServiceFunction: bool)

  /** The telemetry of one service function, with the weights its advertiser chose. */
  datatype ServiceFunctionInfo = ServiceFunctionInfo(
    processingTime: Float64, load: Float64, usageCount: U32, lastUpdateTime: int,
    processingWeight: Float64, loadWeight: Float64, usageWeight: Float64)

  /** time_point::min() in whole seconds: the stamp of a record that was never stamped. */
  const TIME_MIN: int := -0x8000_0000_0000_0000

  /** The value-initialised ServiceFunctionInfo: no telemetry and no time stamp. */
  const UNSET_INFO: ServiceFunctionInfo := ServiceFunctionInfo(ZERO, ZERO, 0, TIME_MIN, ZERO, ZERO, ZERO)

  /** A lookup in a service map: the record for name, or the value-initialised record when there is none. */
  function ServiceInfoFor(services: map<Name, ServiceFunctionInfo>, name: Name): (info: ServiceFunctionInfo)
    ensures name in services ==> info == services[name]
    ensures name !in services ==> info == UNSET_INFO
  {
    if name in services then services[name] else UNSET_INFO
  }

  /** The values a decoded ServiceFunction element starts from, stamped with the decoding time. */
  function Defaults(now: int): ServiceFunctionInfo
  {
    ServiceFunctionInfo(ZERO, ZERO, 0, now, POINT_FOUR, POINT_FOUR, POINT_TWO)
  }

  // ---------------------------------------------------------------------
  // Names
  // ---------------------------------------------------------------------

  predicate ValidComponent(c: Component)
  {
    1 <= c.typ <= 65535 && |c.value| < TWO_64
  }

  predicate ValidComponents(n: Name)
  {
    forall k :: 0 <= k < |n| ==> ValidComponent(n[k])
  }

  function ComponentElements(n: Name): (es: seq<Element>)
    requires ValidComponents(n)
    ensures |es| == |n| && AllEncodable(es)
    ensures forall k :: 0 <= k < |n| ==> es[k] == Element(n[k].typ, n[k].value)
  {
    seq(|n|, k requires 0 <= k < |n| => Element(n[k].typ, n[k].value))
  }

  /** A name small enough to be written as one Name element. */
  predicate NameEncodable(n: Name)
  {
    ValidComponents(n) && |EncodeElements(ComponentElements(n))| < TWO_64
  }

  function NameElement(n: Name): (e: Element)
    requires NameEncodable(n)
    ensures Encodable(e) && e.typ == NAME_TYPE
  {
    Element(NAME_TYPE, EncodeElements(ComponentElements(n)))
  }

  /** Decode the value of a Name element: every element is a component of type 1 .. 65535. */
  function DecodeName(v: seq<Byte>): (r: Option<Name>)
    ensures r.Some? ==> ValidComponents(r.value)
  {
    match ParseElements(v)
      case None => None
      case Some(es) =>
        if forall k :: 0 <= k < |es| ==> es[k].typ <= 65535
        then Some(seq(|es|, k requires 0 <= k < |es| => Component(es[k].typ, es[k].value)))
        else None
  }

  lemma NameRoundTrip(n: Name)
    requires NameEncodable(n)
    ensures DecodeName(NameElement(n).value) == Some(n)
  {
    var es := ComponentElements(n);
    ElementsRoundTrip(es);
    assert forall k :: 0 <= k < |es| ==> es[k].typ <= 65535;
    var m := seq(|es|, k requires 0 <= k < |es| => Component(es[k].typ, es[k].value));
    assert m == n;
  }

  // ---------------------------------------------------------------------
  // PrefixInfo
  // ---------------------------------------------------------------------

  function FlagByte(b: bool): seq<Byte>
  {
    if b then [1] else [0]
  }

  function PrefixFields(p: PrefixInfo): (es: seq<Element>)
    requires NameEncodable(p.name) && p.cost < TWO_64
    ensures AllEncodable(es)
  {
    Pow256Widths();
    [NameElement(p.name), Element(COST_TYPE, BigEndian(p.cost, 8)), Element(SERVICE_FLAG_TYPE, FlagByte(p.isServiceFunction))]
  }

  predicate PrefixEncodable(p: PrefixInfo)
  {
    NameEncodable(p.name) && p.cost < TWO_64 && |EncodeElements(PrefixFields(p))| < TWO_64
  }

  function PrefixElement(p: PrefixInfo): (e: Element)
    requires PrefixEncodable(p)
    ensures Encodable(e) && e.typ == PREFIX_INFO_TYPE
  {
    Element(PREFIX_INFO_TYPE, EncodeElements(PrefixFields(p)))
  }

  /** Decode the value of a PrefixInfo element; None when it is malformed. */
  function DecodePrefixInfo(v: seq<Byte>): Option<PrefixInfo>
  {
    match ParseElements(v)
      case None => None
      case Some(es) =>
        if |es| != 3 || es[0].typ != NAME_TYPE || es[1].typ != COST_TYPE || |es[1].value| != 8
           || es[2].typ != SERVICE_FLAG_TYPE || (es[2].value != [0] && es[2].value != [1])
        then None
        else match DecodeName(es[0].value)
          case None => None
          case Some(n) => Some(PrefixInfo(n, FromBigEndian(es[1].value), es[2].value == [1]))
  }

  lemma PrefixRoundTrip(p: PrefixInfo)
    requires PrefixEncodable(p)
    ensures DecodePrefixInfo(PrefixElement(p).value) == Some(p)
  {
    Pow256Widths();
    var es := PrefixFields(p);
    ElementsRoundTrip(es);
    assert ParseElements(PrefixElement(p).value) == Some(es);
    NameRoundTrip(p.name);
    assert DecodeName(es[0].value) == Some(p.name);
    BigEndianRoundTrip(p.cost, 8);
    assert FromBigEndian(es[1].value) == p.cost;
    assert (es[2].value == [1]) == p.isServiceFunction;
  }

  // ---------------------------------------------------------------------
  // ServiceFunction
  // ---------------------------------------------------------------------

  /** nlsrPrependDoubleBlock: the 8 bytes of the double as the value of an element. */
  function DoubleBlock(t: nat, x: Float64): seq<Byte>
    requires ValidType(t)
  {
    EncodeElement(Element(t, x))
  }

  /**
   * A double block is its type, the length 8 and the 8 bytes; reading it
   * back gives the same bytes, and as a double field it replaces the
   * default, whatever follows it.
   */
  lemma DoubleBlockRoundTrip(t: nat, x: Float64, current: Float64, rest: seq<Byte>)
    requires ValidType(t)
    ensures DoubleBlock(t, x) == EncodeVarNumber(t) + [8] + x
    ensures DecodeElement(DoubleBlock(t, x) + rest) == Some((Element(t, x), |DoubleBlock(t, x)|))
    ensures DoubleField(Element(t, x).value, current) == x
  {
    ElementRoundTrip(Element(t, x), rest);
  }

  /**
   * The value of a ServiceFunction element as the encoder writes it: the
   * name, the UsageCount type followed by the usage count where a length
   * belongs, then Load, ProcessingTime, ProcessingWeight, LoadWeight and
   * UsageWeight.
   */
  function ServiceValue(n: Name, info: ServiceFunctionInfo): seq<Byte>
    requires NameEncodable(n)
  {
    Pow256Widths();
    EncodeElement(NameElement(n)) + EncodeVarNumber(USAGE_COUNT_TYPE) + EncodeVarNumber(info.usageCount as nat)
      + DoubleBlock(LOAD_TYPE, info.load) + DoubleBlock(PROCESSING_TIME_TYPE, info.processingTime)
      + DoubleBlock(PROCESSING_WEIGHT_TYPE, info.processingWeight) + DoubleBlock(LOAD_WEIGHT_TYPE, info.loadWeight)
      + DoubleBlock(USAGE_WEIGHT_TYPE, info.usageWeight)
  }

  predicate ServiceEncodable(n: Name, info: ServiceFunctionInfo)
  {
    NameEncodable(n) && |ServiceValue(n, info)| < TWO_64
  }

  function ServiceElement(n: Name, info: ServiceFunctionInfo): (e: Element)
    requires ServiceEncodable(n, info)
    ensures Encodable(e) && e.typ == SERVICE_FUNCTION_TYPE
  {
    Element(SERVICE_FUNCTION_TYPE, ServiceValue(n, info))
  }

  /** The number that little-endian bytes spell, as a memcpy into an integer reads them. */
  function LittleEndian(b: seq<Byte>): (n: nat)
    ensures n < Pow256(|b|)
  {
    if |b| == 0 then 0 else b[0] as nat + 256 * LittleEndian(b[1..])
  }

  lemma Pow256Monotone(a: nat, b: nat)
    requires a <= b
    ensures Pow256(a) <= Pow256(b)
  {
  }

  /**
   * The usage count a UsageCount element gives: a VAR-NUMBER read from the
   * front of the value, cut to 32 bits; when that read fails, a value of
   * at most 4 bytes is read as a little-endian integer; otherwise the
   * count stays as it was.
   */
  function DecodeUsageCount(v: seq<Byte>, current: U32): (c: U32)
    ensures DecodeVarNumber(v).Some? ==> c as nat == DecodeVarNumber(v).value.0 % TWO_32
    ensures DecodeVarNumber(v).None? && |v| <= 4 ==> c as nat == LittleEndian(v)
    ensures DecodeVarNumber(v).None? && |v| > 4 ==> c == current
  {
    match DecodeVarNumber(v)
      case Some((n, _)) => (n % TWO_32) as U32
      case None =>
        if |v| <= 4 then
          Pow256Monotone(|v|, 4);
          Pow256Widths();
          LittleEndian(v) as U32
        else current
  }

  /** A ServiceFunction element part-way through decoding: the name so far and the record so far. */
  datatype Draft = Draft(name: Name, info: ServiceFunctionInfo)

  /** A double field of exactly 8 bytes replaces the default; any other size leaves it. */
  function DoubleField(v: seq<Byte>, current: Float64): Float64
  {
    if |v| == 8 then v else current
  }

  /** One field of a ServiceFunction element; None when a Name field fails to decode. */
  function ApplyField(e: Element, d: Draft): Option<Draft>
  {
    if e.typ == NAME_TYPE then
      match DecodeName(e.value)
        case None => None
        case Some(n) => Some(d.(name := n))
    else if e.typ == PROCESSING_TIME_TYPE then Some(d.(info := d.info.(processingTime := DoubleField(e.value, d.info.processingTime))))
    else if e.typ == LOAD_TYPE then Some(d.(info := d.info.(load := DoubleField(e.value, d.info.load))))
    else if e.typ == USAGE_COUNT_TYPE then Some(d.(info := d.info.(usageCount := DecodeUsageCount(e.value, d.info.usageCount))))
    else if e.typ == PROCESSING_WEIGHT_TYPE then Some(d.(info := d.info.(processingWeight := DoubleField(e.value, d.info.processingWeight))))
    else if e.typ == LOAD_WEIGHT_TYPE then Some(d.(info := d.info.(loadWeight := DoubleField(e.value, d.info.loadWeight))))
    else if e.typ == USAGE_WEIGHT_TYPE then Some(d.(info := d.info.(usageWeight := DoubleField(e.value, d.info.usageWeight))))
    else Some(d)
  }

  /** The fields applied from the last to the first. */
  function ApplyFieldsReversed(es: seq<Element>, d: Draft): Option<Draft>
  {
    if |es| == 0 then Some(d)
    else match ApplyField(es[|es| - 1], d)
      case None => None
      case Some(d') => ApplyFieldsReversed(es[..|es| - 1], d')
  }

  datatype ServiceOutcome = ServiceFailed | ServiceSkipped | ServiceDecoded(name: Name, info: ServiceFunctionInfo)

  /**
   * Decode the value of a ServiceFunction element: it fails when the value
   * does not parse into elements or its Name does not decode, and it is
   * skipped when the name is empty.
   */
  function DecodeService(v: seq<Byte>, now: int): ServiceOutcome
  {
    match ParseElements(v)
      case None => ServiceFailed
      case Some(es) =>
        match ApplyFieldsReversed(es, Draft([], Defaults(now)))
          case None => ServiceFailed
          case Some(d) => if |d.name| == 0 then ServiceSkipped else ServiceDecoded(d.name, d.info)
  }

  /** The sub-element types a ServiceFunction element reads; every other type is skipped. */
  predicate ServiceFieldType(t: nat)
  {
    t == NAME_TYPE || t == PROCESSING_TIME_TYPE || t == LOAD_TYPE || t == USAGE_COUNT_TYPE
    || t == PROCESSING_WEIGHT_TYPE || t == LOAD_WEIGHT_TYPE || t == USAGE_WEIGHT_TYPE
  }

  /** The field appended last is applied first. */
  lemma AppliedLast(es: seq<Element>, f: Element, d: Draft)
    ensures ApplyFieldsReversed(es + [f], d) == match ApplyField(f, d)
              case None => None
              case Some(d') => ApplyFieldsReversed(es, d')
  {
    assert (es + [f])[..|es|] == es;
  }

  /** A field of a type the decoder does not read, wherever it stands, changes nothing. */
  lemma {:induction false} UnknownFieldSkipped(a: seq<Element>, e: Element, b: seq<Element>, d: Draft)
    requires !ServiceFieldType(e.typ)
    ensures ApplyFieldsReversed(a + [e] + b, d) == ApplyFieldsReversed(a + b, d)
    decreases |b|
  {
    if |b| == 0 {
      assert a + [e] + b == a + [e] && a + b == a;
      AppliedLast(a, e, d);
      assert ApplyField(e, d) == Some(d);
    } else {
      var b', f := b[..|b| - 1], b[|b| - 1];
      assert a + [e] + b == (a + [e] + b') + [f] && a + b == (a + b') + [f];
      AppliedLast(a + [e] + b', f, d);
      AppliedLast(a + b', f, d);
      if ApplyField(f, d).Some? {
        UnknownFieldSkipped(a, e, b', ApplyField(f, d).value);
      }
    }
  }

  /**
   * Forward compatibility inside a ServiceFunction element: a well-formed
   * sub-element of a type the decoder does not read, inserted at any
   * position, leaves the outcome as it was.
   */
  lemma UnknownSubElementSkipped(es: seq<Element>, k: nat, e: Element, now: int)
    requires AllEncodable(es) && Encodable(e) && k <= |es| && !ServiceFieldType(e.typ)
    ensures AllEncodable(es[..k] + [e] + es[k..])
    ensures DecodeService(EncodeElements(es[..k] + [e] + es[k..]), now) == DecodeService(EncodeElements(es), now)
  {
    InsertEncodable(es, k, e);
    UnknownFieldSkipped(es[..k], e, es[k..], Draft([], Defaults(now)));
    SameFieldsSameService(es[..k] + [e] + es[k..], es, now);
  }

  /** Two field lists that apply alike decode alike. */
  lemma SameFieldsSameService(x: seq<Element>, y: seq<Element>, now: int)
    requires AllEncodable(x) && AllEncodable(y)
    requires ApplyFieldsReversed(x, Draft([], Defaults(now))) == ApplyFieldsReversed(y, Draft([], Defaults(now)))
    ensures DecodeService(EncodeElements(x), now) == DecodeService(EncodeElements(y), now)
  {
    ElementsRoundTrip(x);
    ElementsRoundTrip(y);
  }

  /** The fields of a ServiceFunction element whose usage count is 0. */
  function ServiceFields(n: Name, info: ServiceFunctionInfo): (es: seq<Element>)
    requires NameEncodable(n)
    ensures AllEncodable(es)
  {
    [NameElement(n), Element(USAGE_COUNT_TYPE, []), Element(LOAD_TYPE, info.load), Element(PROCESSING_TIME_TYPE, info.processingTime),
     Element(PROCESSING_WEIGHT_TYPE, info.processingWeight), Element(LOAD_WEIGHT_TYPE, info.loadWeight), Element(USAGE_WEIGHT_TYPE, info.usageWeight)]
  }

  lemma Regroup(a: seq<Byte>, b: seq<Byte>, c: seq<Byte>, d: seq<Byte>, e: seq<Byte>, f: seq<Byte>, g: seq<Byte>)
    ensures a + b + c + d + e + f + g == a + (b + (c + (d + (e + (f + g)))))
  {
  }

  /** With a usage count of 0, the encoder's bytes are exactly seven well-formed fields. */
  lemma ServiceValueAsFields(n: Name, info: ServiceFunctionInfo)
    requires NameEncodable(n) && info.usageCount == 0
    ensures ServiceValue(n, info) == EncodeElements(ServiceFields(n, info))
  {
    var es := ServiceFields(n, info);
    var x0, x1, x2, x3 := EncodeElement(es[0]), EncodeElement(es[1]), EncodeElement(es[2]), EncodeElement(es[3]);
    var x4, x5, x6 := EncodeElement(es[4]), EncodeElement(es[5]), EncodeElement(es[6]);
    assert x1 == EncodeVarNumber(USAGE_COUNT_TYPE) + EncodeVarNumber(0);
    assert ServiceValue(n, info) == x0 + x1 + x2 + x3 + x4 + x5 + x6;
    assert es[7..] == [];
    assert EncodeElements(es[6..]) == x6 by { assert es[6..][1..] == es[7..]; }
    assert EncodeElements(es[5..]) == x5 + x6 by { assert es[5..][1..] == es[6..]; }
    assert EncodeElements(es[4..]) == x4 + (x5 + x6) by { assert es[4..][1..] == es[5..]; }
    assert EncodeElements(es[3..]) == x3 + (x4 + (x5 + x6)) by { assert es[3..][1..] == es[4..]; }
    assert EncodeElements(es[2..]) == x2 + (x3 + (x4 + (x5 + x6))) by { assert es[2..][1..] == es[3..]; }
    assert EncodeElements(es[1..]) == x1 + (x2 + (x3 + (x4 + (x5 + x6)))) by { assert es[1..][1..] == es[2..]; }
    Regroup(x0, x1, x2, x3, x4, x5, x6);
  }

  /** Applying the seven fields, last first, to the defaults yields the name and the record. */
  lemma ServiceFieldsApplied(n: Name, info: ServiceFunctionInfo, now: int)
    requires NameEncodable(n) && info.usageCount == 0
    ensures ApplyFieldsReversed(ServiceFields(n, info), Draft([], Defaults(now))) == Some(Draft(n, info.(lastUpdateTime := now)))
  {
    var es := ServiceFields(n, info);
    NameRoundTrip(n);
    var d0 := Draft([], Defaults(now));
    var d1 := d0.(info := d0.info.(usageWeight := info.usageWeight));
    var d2 := d1.(info := d1.info.(loadWeight := info.loadWeight));
    var d3 := d2.(info := d2.info.(processingWeight := info.processingWeight));
    var d4 := d3.(info := d3.info.(processingTime := info.processingTime));
    var d5 := d4.(info := d4.info.(load := info.load));
    assert DecodeVarNumber([]).None?;
    var d6 := d5.(info := d5.info.(usageCount := 0));
    var d7 := d6.(name := n);
    assert ApplyFieldsReversed(es[..1], d6) == Some(d7);
    assert ApplyFieldsReversed(es[..2], d5) == Some(d7) by {
      assert es[..2][..1] == es[..1];
    }
    assert ApplyFieldsReversed(es[..3], d4) == Some(d7) by {
      assert es[..3][..2] == es[..2];
    }
    assert ApplyFieldsReversed(es[..4], d3) == Some(d7) by {
      assert es[..4][..3] == es[..3];
    }
    assert ApplyFieldsReversed(es[..5], d2) == Some(d7) by {
      assert es[..5][..4] == es[..4];
    }
    assert ApplyFieldsReversed(es[..6], d1) == Some(d7) by {
      assert es[..6][..5] == es[..5];
    }
    assert ApplyFieldsReversed(es, d0) == Some(d7) by {
      assert es[..6] == es[..|es| - 1];
    }
    assert d7.info == info.(lastUpdateTime := now);
  }

  /** The types of the given fields. */
  function TypesOf(es: seq<Element>): (ts: set<nat>)
    ensures forall k :: 0 <= k < |es| ==> es[k].typ in ts
  {
    if |es| == 0 then {} else TypesOf(es[..|es| - 1]) + {es[|es| - 1].typ}
  }

  /**
   * The draft after applying fields of the types ts, drawn from the seven
   * of (n, info): a part whose type is in ts takes its value from (n,
   * info), every other part keeps d's.
   */
  function Assigned(n: Name, info: ServiceFunctionInfo, ts: set<nat>, d: Draft): Draft
  {
    var i := d.info;
    Draft(
      if NAME_TYPE in ts then n else d.name,
      i.(processingTime := if PROCESSING_TIME_TYPE in ts then info.processingTime else i.processingTime,
         load := if LOAD_TYPE in ts then info.load else i.load,
         usageCount := if USAGE_COUNT_TYPE in ts then 0 else i.usageCount,
         processingWeight := if PROCESSING_WEIGHT_TYPE in ts then info.processingWeight else i.processingWeight,
         loadWeight := if LOAD_WEIGHT_TYPE in ts then info.loadWeight else i.loadWeight,
         usageWeight := if USAGE_WEIGHT_TYPE in ts then info.usageWeight else i.usageWeight))
  }

  /** The field of type t among the seven of (n, info). */
  function FieldOfType(n: Name, info: ServiceFunctionInfo, t: nat): Element
    requires NameEncodable(n)
  {
    if t == NAME_TYPE then NameElement(n)
    else if t == USAGE_COUNT_TYPE then Element(t, [])
    else if t == LOAD_TYPE then Element(t, info.load)
    else if t == PROCESSING_TIME_TYPE then Element(t, info.processingTime)
    else if t == PROCESSING_WEIGHT_TYPE then Element(t, info.processingWeight)
    else if t == LOAD_WEIGHT_TYPE then Element(t, info.loadWeight)
    else Element(t, info.usageWeight)
  }

  /** e is one of the seven fields of (n, info). */
  predicate IsServiceField(n: Name, info: ServiceFunctionInfo, e: Element)
    requires NameEncodable(n)
  {
    ServiceFieldType(e.typ) && e == FieldOfType(n, info, e.typ)
  }

  /** The encoder's fields are the field of each of the seven types. */
  lemma InServiceFields(n: Name, info: ServiceFunctionInfo, e: Element)
    requires NameEncodable(n)
    ensures e in ServiceFields(n, info) <==> IsServiceField(n, info, e)
  {
    var fs := ServiceFields(n, info);
    if e in fs {
      var j :| 0 <= j < |fs| && fs[j] == e;
    }
    if IsServiceField(n, info, e) {
      if e.typ == NAME_TYPE {
        assert fs[0] == e;
      } else if e.typ == USAGE_COUNT_TYPE {
        assert fs[1] == e;
      } else if e.typ == LOAD_TYPE {
        assert fs[2] == e;
      } else if e.typ == PROCESSING_TIME_TYPE {
        assert fs[3] == e;
      } else if e.typ == PROCESSING_WEIGHT_TYPE {
        assert fs[4] == e;
      } else if e.typ == LOAD_WEIGHT_TYPE {
        assert fs[5] == e;
      } else {
        assert fs[6] == e;
      }
    }
  }

  /** One of the seven fields of (n, info) sets its own part of the draft, whatever that part held. */
  lemma FieldStep(n: Name, info: ServiceFunctionInfo, e: Element, d: Draft)
    requires NameEncodable(n) && IsServiceField(n, info, e)
    ensures ApplyField(e, d) == Some(Assigned(n, info, {e.typ}, d))
  {
    if e.typ == NAME_TYPE {
      NameRoundTrip(n);
    } else if e.typ == USAGE_COUNT_TYPE {
      assert DecodeVarNumber([]).None?;
    }
  }

  /**
   * Each of the seven fields sets its own part of the draft whatever that
   * part held, so fields drawn from them, in any order and any number of
   * times, give the draft Assigned describes for their types.
   */
  lemma {:induction false} FieldsAssigned(n: Name, info: ServiceFunctionInfo, es: seq<Element>, d: Draft)
    requires NameEncodable(n)
    requires forall k :: 0 <= k < |es| ==> IsServiceField(n, info, es[k])
    ensures ApplyFieldsReversed(es, d) == Some(Assigned(n, info, TypesOf(es), d))
    decreases |es|
  {
    if |es| == 0 {
      assert Assigned(n, info, {}, d) == d;
    } else {
      var init, e := es[..|es| - 1], es[|es| - 1];
      forall k | 0 <= k < |init| ensures IsServiceField(n, info, init[k]) {
        assert init[k] == es[k];
      }
      assert es == init + [e];
      AppliedLast(init, e, d);
      FieldStep(n, info, e, d);
      FieldsAssigned(n, info, init, Assigned(n, info, {e.typ}, d));
      assert TypesOf(es) == TypesOf(init) + {e.typ};
      AssignedTwice(n, info, TypesOf(init), {e.typ}, d);
    }
  }

  /** Assigning the types of u and then those of ts assigns those of both. */
  lemma AssignedTwice(n: Name, info: ServiceFunctionInfo, ts: set<nat>, u: set<nat>, d: Draft)
    ensures Assigned(n, info, ts, Assigned(n, info, u, d)) == Assigned(n, info, ts + u, d)
  {
  }

  /**
   * The decoder dispatches on the type of each field only: the seven fields
   * of a record with usage count 0, in any order, restore the name and the
   * record, stamped with the decoding time.
   */
  lemma PermutedFieldsApplied(n: Name, info: ServiceFunctionInfo, es: seq<Element>, now: int)
    requires NameEncodable(n) && info.usageCount == 0
    requires multiset(es) == multiset(ServiceFields(n, info))
    ensures ApplyFieldsReversed(es, Draft([], Defaults(now))) == Some(Draft(n, info.(lastUpdateTime := now)))
  {
    var fs := ServiceFields(n, info);
    forall k | 0 <= k < |es| ensures IsServiceField(n, info, es[k]) {
      assert es[k] in multiset(es);
      InServiceFields(n, info, es[k]);
    }
    forall t | ServiceFieldType(t) ensures t in TypesOf(es) {
      FieldTypePresent(n, info, es, t);
    }
    FieldsAssigned(n, info, es, Draft([], Defaults(now)));
  }

  /** Every field type a permutation of the fields reads occurs in it. */
  lemma FieldTypePresent(n: Name, info: ServiceFunctionInfo, es: seq<Element>, t: nat)
    requires NameEncodable(n) && ServiceFieldType(t)
    requires multiset(es) == multiset(ServiceFields(n, info))
    ensures t in TypesOf(es)
  {
    var x := FieldOfType(n, info, t);
    InServiceFields(n, info, x);
    assert x in multiset(ServiceFields(n, info));
    var k :| 0 <= k < |es| && es[k] == x;
  }

  /**
   * A ServiceFunction element whose value holds the seven fields of a
   * record with a non-empty name and usage count 0, in any order, decodes
   * to that record stamped with the decoding time.
   */
  lemma PermutedServiceRoundTrip(n: Name, info: ServiceFunctionInfo, es: seq<Element>, now: int)
    requires NameEncodable(n) && info.usageCount == 0 && |n| > 0
    requires multiset(es) == multiset(ServiceFields(n, info))
    ensures AllEncodable(es)
    ensures DecodeService(EncodeElements(es), now) == ServiceDecoded(n, info.(lastUpdateTime := now))
  {
    var fs := ServiceFields(n, info);
    forall k | 0 <= k < |es| ensures es[k] in fs {
      assert es[k] in multiset(es);
    }
    DrawnEncodable(es, fs);
    ElementsRoundTrip(es);
    PermutedFieldsApplied(n, info, es, now);
  }

  /**
   * A ServiceFunction element with a non-empty name and usage count 0
   * decodes to the same name and the same five doubles byte for byte,
   * stamped with the decoding time.
   */
  lemma ServiceRoundTrip(n: Name, info: ServiceFunctionInfo, now: int)
    requires ServiceEncodable(n, info) && info.usageCount == 0 && |n| > 0
    ensures DecodeService(ServiceValue(n, info), now) == ServiceDecoded(n, info.(lastUpdateTime := now))
  {
    ServiceValueAsFields(n, info);
    ElementsRoundTrip(ServiceFields(n, info));
    ServiceFieldsApplied(n, info, now);
  }

  /** A ServiceFunction element with an empty name is skipped. */
  lemma EmptyServiceNameSkipped(info: ServiceFunctionInfo, now: int)
    requires ServiceEncodable([], info) && info.usageCount == 0
    ensures DecodeService(ServiceValue([], info), now) == ServiceSkipped
  {
    ServiceValueAsFields([], info);
    ElementsRoundTrip(ServiceFields([], info));
    ServiceFieldsApplied([], info, now);
  }

  /** These ten bytes (a one-component Name, a UsageCount of length 1, the Load header, a 0 byte) never parse, whatever follows. */
  lemma SwallowedLoadFails(t: seq<Byte>)
    ensures ParseElements([7, 2, 8, 0, 203, 1, 202, 8, 0, 0] + t).None?
  {
    var b := [7, 2, 8, 0, 203, 1, 202, 8, 0, 0] + t;
    assert DecodeElement(b) == Some((Element(7, [8, 0]), 4)) by {
      assert b[1..][0] == 2 && b[2..4] == [8, 0];
    }
    var c := b[4..];
    assert DecodeElement(c) == Some((Element(203, [202]), 3)) by {
      assert c[0] == 203 && c[1..][0] == 1 && c[2..3] == [202];
    }
    var d := c[3..];
    assert DecodeElement(d) == Some((Element(8, []), 2)) by {
      assert d[0] == 8 && d[1..][0] == 0;
    }
    var e := d[2..];
    assert e[0] == 0;
    assert DecodeElement(e).None?;
    assert ParseElements(e).None?;
    assert ParseElements(d).None?;
    assert ParseElements(c).None?;
  }

  /** The name with one empty component of type 8 is the 4 bytes 7, 2, 8, 0. */
  lemma OneComponentName()
    ensures NameEncodable([Component(8, [])])
    ensures EncodeElement(NameElement([Component(8, [])])) == [7, 2, 8, 0]
  {
    var ces := ComponentElements([Component(8, [])]);
    assert ces[1..] == [];
    assert EncodeElements(ces) == [8, 0];
  }

  lemma Regroup5(x: seq<Byte>, a: seq<Byte>, b: seq<Byte>, c: seq<Byte>, d: seq<Byte>)
    ensures x + a + b + c + d == x + (a + b + c + d)
  {
  }

  /**
   * One record whose usage count of 1 makes decoding fail: the name of one
   * empty type-8 component with the default metrics. The count becomes the
   * length of the UsageCount element, which swallows the Load element's
   * type byte; the Load's length byte 8 then reads as an empty element,
   * and the double's first byte 0 is not a valid type. With other load
   * bytes the value may parse again (UsageCountSwallows).
   */
  lemma UsageCountOneFails(now: int)
    ensures var n := [Component(8, [])];
            NameEncodable(n) && DecodeService(ServiceValue(n, Defaults(now).(usageCount := 1)), now) == ServiceFailed
  {
    OneComponentName();
    var v := ServiceValue([Component(8, [])], Defaults(now).(usageCount := 1));
    UsageCountOneHead(now);
    assert v == [7, 2, 8, 0, 203, 1, 202, 8, 0, 0] + v[10..];
    SwallowedLoadFails(v[10..]);
  }

  /** The first ten bytes of that value: the Name, UsageCount 203 of length 1, and the start of the Load element. */
  lemma UsageCountOneHead(now: int)
    ensures NameEncodable([Component(8, [])])
    ensures var v := ServiceValue([Component(8, [])], Defaults(now).(usageCount := 1));
            |v| >= 10 && v[..10] == [7, 2, 8, 0, 203, 1, 202, 8, 0, 0]
  {
    var n := [Component(8, [])];
    OneComponentName();
    var info := Defaults(now).(usageCount := 1);
    var head := EncodeElement(NameElement(n)) + EncodeVarNumber(USAGE_COUNT_TYPE) + EncodeVarNumber(1);
    assert head == [7, 2, 8, 0, 203, 1];
    var load := DoubleBlock(LOAD_TYPE, ZERO);
    assert load == [202, 8] + ZERO;
    var x := head + load;
    assert x[..10] == [7, 2, 8, 0, 203, 1, 202, 8, 0, 0];
    var a, b := DoubleBlock(PROCESSING_TIME_TYPE, info.processingTime), DoubleBlock(PROCESSING_WEIGHT_TYPE, info.processingWeight);
    var c, d := DoubleBlock(LOAD_WEIGHT_TYPE, info.loadWeight), DoubleBlock(USAGE_WEIGHT_TYPE, info.usageWeight);
    var v := ServiceValue(n, info);
    assert v == x + a + b + c + d;
    Regroup5(x, a, b, c, d);
    assert v[..10] == x[..10];
  }

  /** The five double blocks that follow the UsageCount header, in the encoder's order. */
  function DoubleTail(info: ServiceFunctionInfo): seq<Byte>
  {
    DoubleBlock(LOAD_TYPE, info.load) + DoubleBlock(PROCESSING_TIME_TYPE, info.processingTime)
      + DoubleBlock(PROCESSING_WEIGHT_TYPE, info.processingWeight) + DoubleBlock(LOAD_WEIGHT_TYPE, info.loadWeight)
      + DoubleBlock(USAGE_WEIGHT_TYPE, info.usageWeight)
  }

  /** A double block with a one-byte type: that type, the length 8 and the 8 bytes. */
  lemma DoubleBlockShape(t: nat, x: Float64)
    requires 1 <= t < 253
    ensures |DoubleBlock(t, x)| == 10 && DoubleBlock(t, x)[0] as nat == t
  {
  }

  /** The doubles after the UsageCount header take 50 bytes and open with the Load type. */
  lemma DoubleTailShape(info: ServiceFunctionInfo)
    ensures |DoubleTail(info)| == 50 && DoubleTail(info)[0] as nat == LOAD_TYPE
  {
    DoubleBlockShape(LOAD_TYPE, info.load);
    DoubleBlockShape(PROCESSING_TIME_TYPE, info.processingTime);
    DoubleBlockShape(PROCESSING_WEIGHT_TYPE, info.processingWeight);
    DoubleBlockShape(LOAD_WEIGHT_TYPE, info.loadWeight);
    DoubleBlockShape(USAGE_WEIGHT_TYPE, info.usageWeight);
  }

  lemma Regroup8(x: seq<Byte>, h: seq<Byte>, l: seq<Byte>, a: seq<Byte>, b: seq<Byte>, c: seq<Byte>, d: seq<Byte>, e: seq<Byte>)
    ensures x + h + l + a + b + c + d + e == x + (h + l + (a + b + c + d + e))
  {
  }

  /** A service value is the Name element, then the UsageCount header, then the doubles. */
  lemma ServiceValueSplit(n: Name, info: ServiceFunctionInfo)
    requires NameEncodable(n)
    ensures ServiceValue(n, info)
            == EncodeElement(NameElement(n)) + ([USAGE_COUNT_TYPE as Byte] + EncodeVarNumber(info.usageCount as nat) + DoubleTail(info))
  {
    Pow256Widths();
    assert EncodeVarNumber(USAGE_COUNT_TYPE) == [USAGE_COUNT_TYPE as Byte];
    Regroup8(EncodeElement(NameElement(n)), EncodeVarNumber(USAGE_COUNT_TYPE), EncodeVarNumber(info.usageCount as nat),
             DoubleBlock(LOAD_TYPE, info.load), DoubleBlock(PROCESSING_TIME_TYPE, info.processingTime),
             DoubleBlock(PROCESSING_WEIGHT_TYPE, info.processingWeight), DoubleBlock(LOAD_WEIGHT_TYPE, info.loadWeight),
             DoubleBlock(USAGE_WEIGHT_TYPE, info.usageWeight));
  }

  /** The UsageCount element read from such a header: its value is the first c bytes of t. */
  lemma UsageHeadElement(l: seq<Byte>, c: nat, t: seq<Byte>)
    requires DecodeVarNumber(l + t) == Some((c, |l|))
    ensures DecodeElement([USAGE_COUNT_TYPE as Byte] + l + t)
            == if c > |t| then None else Some((Element(USAGE_COUNT_TYPE, t[..c]), 1 + |l| + c))
    ensures c <= |t| ==> ([USAGE_COUNT_TYPE as Byte] + l + t)[1 + |l| + c..] == t[c..]
  {
    var b := [USAGE_COUNT_TYPE as Byte] + l + t;
    assert DecodeVarNumber(b) == Some((USAGE_COUNT_TYPE, 1));
    assert b[1..] == l + t;
    if c <= |t| {
      assert b[1 + |l|..1 + |l| + c] == t[..c];
    }
  }

  /** The fields of a + b applied last-first: those of b, then those of a. */
  lemma {:induction false} AppliedSplit(a: seq<Element>, b: seq<Element>, d: Draft)
    ensures ApplyFieldsReversed(a + b, d) == match ApplyFieldsReversed(b, d)
              case None => None
              case Some(d') => ApplyFieldsReversed(a, d')
    decreases |b|
  {
    if |b| == 0 {
      assert a + b == a;
    } else {
      var b', f := b[..|b| - 1], b[|b| - 1];
      assert a + b == (a + b') + [f] && b == b' + [f];
      AppliedLast(a + b', f, d);
      AppliedLast(b', f, d);
      if ApplyField(f, d).Some? {
        AppliedSplit(a, b', ApplyField(f, d).value);
      }
    }
  }

  /** The Name field and then the swallowing UsageCount field, applied last-first. */
  lemma NameAfterSwallowed(n: Name, v: seq<Byte>, d: Draft)
    requires NameEncodable(n) && |v| > 0 && v[0] as nat == LOAD_TYPE
    ensures ApplyFieldsReversed([NameElement(n), Element(USAGE_COUNT_TYPE, v)], d)
            == Some(Draft(n, d.info.(usageCount := LOAD_TYPE as U32)))
  {
    var u := Element(USAGE_COUNT_TYPE, v);
    assert DecodeVarNumber(v) == Some((LOAD_TYPE, 1));
    assert ApplyField(u, d) == Some(d.(info := d.info.(usageCount := LOAD_TYPE as U32)));
    NameRoundTrip(n);
    assert [NameElement(n), u] == [NameElement(n)] + [u] && [NameElement(n)] == [] + [NameElement(n)];
    AppliedLast([NameElement(n)], u, d);
    AppliedLast([], NameElement(n), ApplyField(u, d).value);
  }

  /**
   * A non-zero usage count is written where a length belongs, so the
   * UsageCount element swallows that many bytes of the doubles after it.
   * Above the 50 bytes there are, the value no longer parses; otherwise the
   * count reads back as the Load element's type byte.
   */
  lemma UsageCountSwallows(n: Name, info: ServiceFunctionInfo, now: int)
    requires NameEncodable(n) && info.usageCount != 0
    ensures info.usageCount as nat > 50 ==> DecodeService(ServiceValue(n, info), now) == ServiceFailed
    ensures DecodeService(ServiceValue(n, info), now).ServiceDecoded?
            ==> DecodeService(ServiceValue(n, info), now).info.usageCount as nat == LOAD_TYPE
  {
    var v := ServiceValue(n, info);
    SwallowedParse(n, info);
    if ParseElements(v).Some? {
      var es := ParseElements(v).value;
      SwallowedApplied(n, DoubleTail(info)[..info.usageCount as nat], es, Draft([], Defaults(now)));
    }
  }

  /** The value parses only when the count fits in the doubles, and then opens with the Name and the swallowing UsageCount. */
  lemma SwallowedParse(n: Name, info: ServiceFunctionInfo)
    requires NameEncodable(n) && info.usageCount != 0
    ensures var c, p := info.usageCount as nat, ParseElements(ServiceValue(n, info));
            p.Some? ==> c <= 50 && |p.value| >= 2
                        && p.value[..2] == [NameElement(n), Element(USAGE_COUNT_TYPE, DoubleTail(info)[..c])]
  {
    var c := info.usageCount as nat;
    var t := DoubleTail(info);
    var l := EncodeVarNumber(c);
    var tail := [USAGE_COUNT_TYPE as Byte] + l + t;
    ServiceValueSplit(n, info);
    DoubleTailShape(info);
    VarNumberRoundTrip(c, t);
    UsageHeadElement(l, c, t);
    if c <= |t| {
      ParseAfter(tail, Element(USAGE_COUNT_TYPE, t[..c]), 1 + |l| + c, t[c..]);
    } else {
      ParseFront(tail);
    }
    ParseCons(NameElement(n), tail);
  }

  /** Fields that open with the Name and a UsageCount swallowing the Load type leave that type as the count. */
  lemma SwallowedApplied(n: Name, w: seq<Byte>, es: seq<Element>, d: Draft)
    requires NameEncodable(n) && |w| > 0 && w[0] as nat == LOAD_TYPE
    requires |es| >= 2 && es[..2] == [NameElement(n), Element(USAGE_COUNT_TYPE, w)]
    ensures ApplyFieldsReversed(es, d).Some? ==> ApplyFieldsReversed(es, d).value.info.usageCount as nat == LOAD_TYPE
  {
    assert es == es[..2] + es[2..];
    AppliedSplit(es[..2], es[2..], d);
    if ApplyFieldsReversed(es[2..], d).Some? {
      NameAfterSwallowed(n, w, ApplyFieldsReversed(es[2..], d).value);
    }
  }

  /** A record whose usage count is not 0 never decodes back to itself. */
  lemma UsageCountNeverRoundTrips(n: Name, info: ServiceFunctionInfo, now: int)
    requires NameEncodable(n) && info.usageCount != 0
    ensures DecodeService(ServiceValue(n, info), now) != ServiceDecoded(n, info.(lastUpdateTime := now))
  {
    UsageCountSwallows(n, info, now);
  }
}
