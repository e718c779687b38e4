/**
 * A name advertisement (NameLsa): the common LSA header, the advertised
 * prefixes keyed by name, the service-function records keyed by service
 * name, and the cached encoding of the whole record.
 *
 * Decoding stops at the first malformed PrefixInfo or ServiceFunction
 * element and leaves what it has written so far: the cached block, the
 * header and the service records decoded before the failure (the prefix
 * list is only replaced at the end). Merging a newer advertisement
 * replaces the prefix list by the incoming names, keeping the existing
 * entry for a name both have, and merges the service records field by
 * field with IEEE comparison; an incoming advertisement without service
 * records leaves the existing ones in place.
 */
module NameAdvertisement {

  import opened Ndn
  import opened Tlv
  import opened Ieee
  import opened NameLsaCodec

  datatype DecodeError = WrongType(typ: nat) | MissingLsa | Malformed

  /** A prefix list: the PrefixInfo of each advertised name, keyed by that name. */
  predicate Keyed(npl: map<Name, PrefixInfo>)
  {
    forall n :: n in npl ==> npl[n].name == n
  }

  /** NamePrefixList::insert: a name already present keeps its entry. */
  function InsertFirst(npl: map<Name, PrefixInfo>, p: PrefixInfo): (r: map<Name, PrefixInfo>)
    ensures p.name in r && r.Keys == npl.Keys + {p.name}
    ensures forall n :: n in npl ==> r[n] == npl[n]
    ensures p.name !in npl ==> r[p.name] == p
  {
    if p.name in npl then npl else npl[p.name := p]
  }

  // ---------------------------------------------------------------------
  // Decoding
  // ---------------------------------------------------------------------

  /** What the loop over the elements after the header has gathered so far. */
  datatype Body = Body(npl: map<Name, PrefixInfo>, services: map<Name, ServiceFunctionInfo>, failed: bool)

  /** What one element after the header contributes. */
  datatype Item = PrefixItem(p: PrefixInfo) | ServiceItem(name: Name, info: ServiceFunctionInfo) | Ignored | Broken

  /**
   * One element after the header: PrefixInfo and ServiceFunction elements
   * are decoded; a ServiceFunction element with an empty name and an
   * element of any other type are skipped.
   */
  function Classify(e: Element, now: int): Item
  {
    if e.typ == PREFIX_INFO_TYPE then
      match DecodePrefixInfo(e.value)
        case None => Broken
        case Some(p) => PrefixItem(p)
    else if e.typ == SERVICE_FUNCTION_TYPE then
      match DecodeService(e.value, now)
        case ServiceFailed => Broken
        case ServiceSkipped => Ignored
        case ServiceDecoded(n, info) => ServiceItem(n, info)
    else Ignored
  }

  function Classified(es: seq<Element>, now: int): (items: seq<Item>)
    ensures |items| == |es|
  {
    seq(|es|, j requires 0 <= j < |es| => Classify(es[j], now))
  }

  lemma ClassifiedAppend(a: seq<Element>, b: seq<Element>, now: int)
    ensures Classified(a + b, now) == Classified(a, now) + Classified(b, now)
  {
    var l, r := Classified(a + b, now), Classified(a, now) + Classified(b, now);
    forall j | 0 <= j < |l|
      ensures l[j] == r[j]
    {
      if j < |a| {
        assert (a + b)[j] == a[j];
      } else {
        assert (a + b)[j] == b[j - |a|];
      }
    }
  }

  /** npl insert keeps the first entry per name; a broken element stops the loop. */
  function Absorb(b: Body, item: Item): Body
  {
    if b.failed then b
    else match item
      case PrefixItem(p) => b.(npl := InsertFirst(b.npl, p))
      case ServiceItem(n, info) => b.(services := b.services[n := info])
      case Ignored => b
      case Broken => b.(failed := true)
  }

  /** The items absorbed from the first to the last; the prefix list it builds is keyed by name. */
  function AbsorbAll(items: seq<Item>): (b: Body)
    ensures Keyed(b.npl)
  {
    if |items| == 0 then Body(map[], map[], false)
    else Absorb(AbsorbAll(items[..|items| - 1]), items[|items| - 1])
  }

  lemma AbsorbStep(items: seq<Item>, i: nat)
    requires i < |items|
    ensures AbsorbAll(items[..i + 1]) == Absorb(AbsorbAll(items[..i]), items[i])
  {
    assert items[..i + 1][..i] == items[..i];
  }

  /** The k-th item after base is absorbed last. */
  lemma AbsorbAppendStep(base: seq<Item>, items: seq<Item>, k: nat)
    requires 0 < k <= |items|
    ensures AbsorbAll(base + items[..k]) == Absorb(AbsorbAll(base + items[..k - 1]), items[k - 1])
  {
    var cur := base + items[..k];
    assert cur[..|cur| - 1] == base + items[..k - 1];
  }

  /** Once an element fails, the elements after it change nothing. */
  lemma {:induction false} FailedStays(items: seq<Item>, j: nat)
    requires j <= |items| && AbsorbAll(items[..j]).failed
    ensures AbsorbAll(items) == AbsorbAll(items[..j])
    decreases |items|
  {
    if j < |items| {
      var init := items[..|items| - 1];
      assert init[..j] == items[..j];
      FailedStays(init, j);
    } else {
      assert items[..j] == items;
    }
  }

  /** An ignored item, wherever it stands, changes nothing. */
  lemma {:induction false} IgnoredAbsorbed(a: seq<Item>, b: seq<Item>)
    ensures AbsorbAll(a + [Ignored] + b) == AbsorbAll(a + b)
    decreases |b|
  {
    if |b| == 0 {
      assert a + [Ignored] + b == a + [Ignored] && a + b == a;
      assert (a + [Ignored])[..|a|] == a;
    } else {
      var b' := b[..|b| - 1];
      assert (a + [Ignored] + b)[..|a| + |b|] == a + [Ignored] + b';
      assert (a + b)[..|a| + |b| - 1] == a + b';
      IgnoredAbsorbed(a, b');
    }
  }

  /** The state a NameLsa holds. */
  datatype LsaState = LsaState(header: seq<Byte>, npl: map<Name, PrefixInfo>, services: map<Name, ServiceFunctionInfo>, wire: Option<Element>)

  /**
   * wireDecode: the new state and the error, if any. The cached block is
   * always the decoded one; on every error the prefix list is the old one.
   */
  function Decode(s: LsaState, block: Element, now: int): (r: (LsaState, Option<DecodeError>))
    ensures r.0.wire == Some(block)
    ensures r.1 == Some(WrongType(block.typ)) <==> block.typ != NAME_LSA_TYPE
    ensures r.1 == Some(MissingLsa) <==>
              block.typ == NAME_LSA_TYPE && ParseElements(block.value).Some?
              && (|ParseElements(block.value).value| == 0 || ParseElements(block.value).value[0].typ != LSA_TYPE)
    ensures r.1 == Some(Malformed) <==>
              block.typ == NAME_LSA_TYPE
              && match ParseElements(block.value)
                   case None => true
                   case Some(es) => |es| > 0 && es[0].typ == LSA_TYPE && AbsorbAll(Classified(es[1..], now)).failed
    ensures r.1.Some? ==> r.0.npl == s.npl
    ensures r.1.None? || r.1 == Some(Malformed) || r.0.services == s.services
    ensures Keyed(s.npl) ==> Keyed(r.0.npl)
  {
    var s1 := s.(wire := Some(block));
    if block.typ != NAME_LSA_TYPE then (s1, Some(WrongType(block.typ)))
    else match ParseElements(block.value)
      case None => (s1, Some(Malformed))
      case Some(es) =>
        if |es| == 0 || es[0].typ != LSA_TYPE then (s1, Some(MissingLsa))
        else
          var body := AbsorbAll(Classified(es[1..], now));
          if body.failed then (s1.(header := es[0].value, services := body.services), Some(Malformed))
          else (s1.(header := es[0].value, npl := body.npl, services := body.services), None)
  }

  // ---------------------------------------------------------------------
  // Encoding
  // ---------------------------------------------------------------------

  /** order lists every key exactly once: one iteration order of a map. */
  predicate Enumerates(order: seq<Name>, keys: set<Name>)
  {
    (forall k :: 0 <= k < |order| ==> order[k] in keys)
    && (forall x :: x in keys ==> x in order)
    && (forall i, j :: 0 <= i < j < |order| ==> order[i] != order[j])
  }

  /** A record the encoder can write: every part fits a TLV-LENGTH. */
  predicate Writable(header: seq<Byte>, npl: map<Name, PrefixInfo>, services: map<Name, ServiceFunctionInfo>)
  {
    |header| < TWO_64 && Keyed(npl)
    && (forall n :: n in npl ==> PrefixEncodable(npl[n]))
    && (forall n :: n in services ==> ServiceEncodable(n, services[n]))
  }

  function PrefixElements(npl: map<Name, PrefixInfo>, order: seq<Name>): (es: seq<Element>)
    requires forall k :: 0 <= k < |order| ==> order[k] in npl && PrefixEncodable(npl[order[k]])
    ensures |es| == |order| && AllEncodable(es)
  {
    seq(|order|, k requires 0 <= k < |order| => PrefixElement(npl[order[k]]))
  }

  function ServiceElements(services: map<Name, ServiceFunctionInfo>, order: seq<Name>): (es: seq<Element>)
    requires forall k :: 0 <= k < |order| ==> order[k] in services && ServiceEncodable(order[k], services[order[k]])
    ensures |es| == |order| && AllEncodable(es)
  {
    seq(|order|, k requires 0 <= k < |order| => ServiceElement(order[k], services[order[k]]))
  }

  /** The elements of a NameLsa block: the header, the prefixes, then the service records. */
  function RecordElements(header: seq<Byte>, npl: map<Name, PrefixInfo>, services: map<Name, ServiceFunctionInfo>,
                          nplOrder: seq<Name>, svcOrder: seq<Name>): (es: seq<Element>)
    requires Writable(header, npl, services)
    requires forall k :: 0 <= k < |nplOrder| ==> nplOrder[k] in npl
    requires forall k :: 0 <= k < |svcOrder| ==> svcOrder[k] in services
    ensures AllEncodable(es)
  {
    [Element(LSA_TYPE, header)] + PrefixElements(npl, nplOrder) + ServiceElements(services, svcOrder)
  }

  function EncodeRecord(header: seq<Byte>, npl: map<Name, PrefixInfo>, services: map<Name, ServiceFunctionInfo>,
                        nplOrder: seq<Name>, svcOrder: seq<Name>): (block: Element)
    requires Writable(header, npl, services)
    requires forall k :: 0 <= k < |nplOrder| ==> nplOrder[k] in npl
    requires forall k :: 0 <= k < |svcOrder| ==> svcOrder[k] in services
    ensures block.typ == NAME_LSA_TYPE
  {
    Element(NAME_LSA_TYPE, EncodeElements(RecordElements(header, npl, services, nplOrder, svcOrder)))
  }

  /** Each service record as decoding leaves it: stamped with the decoding time. */
  function Stamped(services: map<Name, ServiceFunctionInfo>, now: int): map<Name, ServiceFunctionInfo>
  {
    map n | n in services :: services[n].(lastUpdateTime := now)
  }

  lemma EncodeCons(e: Element, es: seq<Element>)
    requires Encodable(e) && AllEncodable(es)
    ensures AllEncodable([e] + es) && EncodeElements([e] + es) == EncodeElement(e) + EncodeElements(es)
  {
    assert ([e] + es)[1..] == es;
  }

  /** Each item is the entry of npl for the name at the same place in order. */
  predicate PrefixRun(items: seq<Item>, npl: map<Name, PrefixInfo>, order: seq<Name>)
  {
    |items| == |order| && forall j :: 0 <= j < |items| ==> order[j] in npl && items[j] == PrefixItem(npl[order[j]])
  }

  /** Each item is the record for the name at the same place in order, stamped with the time. */
  predicate ServiceRun(items: seq<Item>, services: map<Name, ServiceFunctionInfo>, order: seq<Name>, now: int)
  {
    |items| == |order|
    && forall j :: 0 <= j < |items| ==>
      order[j] in services && items[j] == ServiceItem(order[j], services[order[j]].(lastUpdateTime := now))
  }

  /** Absorbing the first k items of a prefix run yields entries of npl, among them the first k names. */
  lemma {:induction false} AbsorbPrefixes(items: seq<Item>, npl: map<Name, PrefixInfo>, order: seq<Name>, k: nat)
    requires Keyed(npl) && PrefixRun(items, npl, order) && k <= |items|
    ensures var b := AbsorbAll(items[..k]);
            !b.failed && b.services == map[]
            && (forall x :: x in b.npl ==> x in npl && b.npl[x] == npl[x])
            && (forall j :: 0 <= j < k ==> order[j] in b.npl)
  {
    if k > 0 {
      AbsorbPrefixes(items, npl, order, k - 1);
      var cur := items[..k];
      assert cur[..|cur| - 1] == items[..k - 1] && cur[|cur| - 1] == items[k - 1];
      assert npl[order[k - 1]].name == order[k - 1];
    }
  }

  /** After items that have not failed and found no service, absorbing k items of a service run records exactly those services. */
  lemma {:induction false} AbsorbServices(base: seq<Item>, items: seq<Item>, services: map<Name, ServiceFunctionInfo>, order: seq<Name>, k: nat, now: int)
    requires !AbsorbAll(base).failed && AbsorbAll(base).services == map[]
    requires ServiceRun(items, services, order, now) && k <= |items|
    ensures var b := AbsorbAll(base + items[..k]);
            !b.failed && b.npl == AbsorbAll(base).npl
            && (forall x :: x in b.services ==> x in services && b.services[x] == services[x].(lastUpdateTime := now))
            && (forall j :: 0 <= j < k ==> order[j] in b.services)
  {
    if k == 0 {
      assert base + items[..0] == base;
    } else {
      AbsorbServices(base, items, services, order, k - 1, now);
      AbsorbAppendStep(base, items, k);
      var prev, b := AbsorbAll(base + items[..k - 1]), AbsorbAll(base + items[..k]);
      var n := order[k - 1];
      assert items[k - 1] == ServiceItem(n, services[n].(lastUpdateTime := now));
      assert b.services == prev.services[n := services[n].(lastUpdateTime := now)];
      forall j | 0 <= j < k ensures order[j] in b.services {
        if j < k - 1 {
          assert order[j] in prev.services;
        }
      }
    }
  }

  /** A prefix run over an enumeration of npl absorbs to exactly npl. */
  lemma PrefixRunAbsorbed(items: seq<Item>, npl: map<Name, PrefixInfo>, order: seq<Name>)
    requires Keyed(npl) && PrefixRun(items, npl, order) && Enumerates(order, npl.Keys)
    ensures AbsorbAll(items) == Body(npl, map[], false)
  {
    var b := AbsorbAll(items);
    assert !b.failed && b.services == map[]
        && (forall x :: x in b.npl ==> x in npl && b.npl[x] == npl[x])
        && (forall j :: 0 <= j < |order| ==> order[j] in b.npl) by {
      AbsorbPrefixes(items, npl, order, |items|);
      assert items[..|items|] == items;
    }
    assert b.npl.Keys == npl.Keys by {
      forall x | x in npl
        ensures x in b.npl
      {
        var j :| 0 <= j < |order| && order[j] == x;
      }
    }
    assert b.npl == npl;
  }

  /** A service run over an enumeration of services, after such a prefix run, adds exactly the stamped services. */
  lemma ServiceRunAbsorbed(base: seq<Item>, items: seq<Item>, services: map<Name, ServiceFunctionInfo>, order: seq<Name>, now: int)
    requires !AbsorbAll(base).failed && AbsorbAll(base).services == map[]
    requires ServiceRun(items, services, order, now) && Enumerates(order, services.Keys)
    ensures AbsorbAll(base + items) == AbsorbAll(base).(services := Stamped(services, now))
  {
    var b := AbsorbAll(base + items);
    assert !b.failed && b.npl == AbsorbAll(base).npl
        && (forall x :: x in b.services ==> x in services && b.services[x] == services[x].(lastUpdateTime := now))
        && (forall j :: 0 <= j < |items| ==> order[j] in b.services) by {
      AbsorbServices(base, items, services, order, |items|, now);
      assert items[..|items|] == items;
    }
    assert b.services.Keys == services.Keys by {
      forall x | x in services
        ensures x in b.services
      {
        var j :| 0 <= j < |order| && order[j] == x;
      }
    }
    assert b.services == Stamped(services, now);
  }

  /** A NameLsa block whose elements parse back: the header and what the rest absorbs. */
  lemma DecodeElementsBlock(s: LsaState, header: seq<Byte>, rest: seq<Element>, now: int,
                             npl: map<Name, PrefixInfo>, services: map<Name, ServiceFunctionInfo>)
    requires |header| < TWO_64 && AllEncodable(rest)
    requires AbsorbAll(Classified(rest, now)) == Body(npl, services, false)
    ensures AllEncodable([Element(LSA_TYPE, header)] + rest)
    ensures var block := Element(NAME_LSA_TYPE, EncodeElements([Element(LSA_TYPE, header)] + rest));
            Decode(s, block, now) == (LsaState(header, npl, services, Some(block)), None)
  {
    var es := [Element(LSA_TYPE, header)] + rest;
    EncodeCons(Element(LSA_TYPE, header), rest);
    ElementsRoundTrip(es);
    assert es[1..] == rest;
  }

  /**
   * Forward compatibility: an element of any type other than PrefixInfo
   * and ServiceFunction, inserted anywhere after the Lsa header, is
   * skipped. Decoding gives the same header, prefixes, services and error;
   * only the cached block differs.
   */
  lemma UnknownElementSkipped(s: LsaState, header: seq<Byte>, rest: seq<Element>, k: nat, e: Element, now: int)
    requires |header| < TWO_64 && AllEncodable(rest) && Encodable(e) && k <= |rest|
    requires e.typ != PREFIX_INFO_TYPE && e.typ != SERVICE_FUNCTION_TYPE
    ensures AllEncodable([Element(LSA_TYPE, header)] + rest)
    ensures AllEncodable([Element(LSA_TYPE, header)] + (rest[..k] + [e] + rest[k..]))
    ensures var block := Element(NAME_LSA_TYPE, EncodeElements([Element(LSA_TYPE, header)] + rest));
            var block' := Element(NAME_LSA_TYPE, EncodeElements([Element(LSA_TYPE, header)] + (rest[..k] + [e] + rest[k..])));
            Decode(s, block', now) == (Decode(s, block, now).0.(wire := Some(block')), Decode(s, block, now).1)
  {
    InsertEncodable(rest, k, e);
    HeaderBlockParses(header, rest);
    HeaderBlockParses(header, rest[..k] + [e] + rest[k..]);
    IgnoredInserted(rest, k, e, now);
  }

  /** A block of the Lsa header and writable elements parses back into them. */
  lemma HeaderBlockParses(header: seq<Byte>, rest: seq<Element>)
    requires |header| < TWO_64 && AllEncodable(rest)
    ensures AllEncodable([Element(LSA_TYPE, header)] + rest)
    ensures ParseElements(EncodeElements([Element(LSA_TYPE, header)] + rest)) == Some([Element(LSA_TYPE, header)] + rest)
    ensures ([Element(LSA_TYPE, header)] + rest)[1..] == rest
  {
    EncodeCons(Element(LSA_TYPE, header), rest);
    ElementsRoundTrip([Element(LSA_TYPE, header)] + rest);
  }

  /** An element that classifies as ignored, inserted among the elements, leaves what they absorb to. */
  lemma IgnoredInserted(rest: seq<Element>, k: nat, e: Element, now: int)
    requires k <= |rest| && e.typ != PREFIX_INFO_TYPE && e.typ != SERVICE_FUNCTION_TYPE
    ensures AbsorbAll(Classified(rest[..k] + [e] + rest[k..], now)) == AbsorbAll(Classified(rest, now))
  {
    assert rest[..k] + rest[k..] == rest;
    ClassifiedAppend(rest[..k], rest[k..], now);
    ClassifiedAppend(rest[..k], [e], now);
    ClassifiedAppend(rest[..k] + [e], rest[k..], now);
    assert Classified([e], now) == [Ignored];
    IgnoredAbsorbed(Classified(rest[..k], now), Classified(rest[k..], now));
  }

  /** A header, a prefix run and a service run, encoded as one block, decode to the record they stand for. */
  lemma RunsRoundTrip(s: LsaState, header: seq<Byte>, ps: seq<Element>, ss: seq<Element>,
                      npl: map<Name, PrefixInfo>, services: map<Name, ServiceFunctionInfo>,
                      nplOrder: seq<Name>, svcOrder: seq<Name>, now: int)
    requires |header| < TWO_64 && AllEncodable(ps) && AllEncodable(ss) && Keyed(npl)
    requires PrefixRun(Classified(ps, now), npl, nplOrder) && Enumerates(nplOrder, npl.Keys)
    requires ServiceRun(Classified(ss, now), services, svcOrder, now) && Enumerates(svcOrder, services.Keys)
    ensures AllEncodable([Element(LSA_TYPE, header)] + ps + ss)
    ensures var block := Element(NAME_LSA_TYPE, EncodeElements([Element(LSA_TYPE, header)] + ps + ss));
            Decode(s, block, now) == (LsaState(header, npl, Stamped(services, now), Some(block)), None)
  {
    assert [Element(LSA_TYPE, header)] + ps + ss == [Element(LSA_TYPE, header)] + (ps + ss);
    EncodeElementsAppend(ps, ss);
    RunsAbsorbed(ps, ss, npl, services, nplOrder, svcOrder, now);
    DecodeElementsBlock(s, header, ps + ss, now, npl, Stamped(services, now));
  }

  /** The elements after the header of such a block absorb to the prefix list and the stamped services. */
  lemma RunsAbsorbed(ps: seq<Element>, ss: seq<Element>, npl: map<Name, PrefixInfo>, services: map<Name, ServiceFunctionInfo>,
                     nplOrder: seq<Name>, svcOrder: seq<Name>, now: int)
    requires Keyed(npl)
    requires PrefixRun(Classified(ps, now), npl, nplOrder) && Enumerates(nplOrder, npl.Keys)
    requires ServiceRun(Classified(ss, now), services, svcOrder, now) && Enumerates(svcOrder, services.Keys)
    ensures AbsorbAll(Classified(ps + ss, now)) == Body(npl, Stamped(services, now), false)
  {
    ClassifiedAppend(ps, ss, now);
    PrefixRunAbsorbed(Classified(ps, now), npl, nplOrder);
    ServiceRunAbsorbed(Classified(ps, now), Classified(ss, now), services, svcOrder, now);
  }

  lemma PrefixElementsRun(npl: map<Name, PrefixInfo>, order: seq<Name>, now: int)
    requires forall n :: n in npl ==> PrefixEncodable(npl[n])
    requires forall j :: 0 <= j < |order| ==> order[j] in npl
    ensures PrefixRun(Classified(PrefixElements(npl, order), now), npl, order)
  {
    forall j | 0 <= j < |order|
      ensures Classify(PrefixElements(npl, order)[j], now) == PrefixItem(npl[order[j]])
    {
      PrefixRoundTrip(npl[order[j]]);
    }
  }

  lemma ServiceElementsRun(services: map<Name, ServiceFunctionInfo>, order: seq<Name>, now: int)
    requires forall n :: n in services ==> ServiceEncodable(n, services[n]) && |n| > 0 && services[n].usageCount == 0
    requires forall j :: 0 <= j < |order| ==> order[j] in services
    ensures ServiceRun(Classified(ServiceElements(services, order), now), services, order, now)
  {
    var es := ServiceElements(services, order);
    forall j | 0 <= j < |order|
      ensures Classify(es[j], now) == ServiceItem(order[j], services[order[j]].(lastUpdateTime := now))
    {
      ServiceClassified(order[j], services[order[j]], now);
    }
  }

  /** One encoded service record reads back as that record, stamped. */
  lemma ServiceClassified(n: Name, info: ServiceFunctionInfo, now: int)
    requires ServiceEncodable(n, info) && |n| > 0 && info.usageCount == 0
    ensures Classify(ServiceElement(n, info), now) == ServiceItem(n, info.(lastUpdateTime := now))
  {
    ServiceRoundTrip(n, info, now);
  }

  /**
   * Decoding an encoded record, whatever the iteration orders, restores
   * the header, the prefix list and every service record with a non-empty
   * name and usage count 0, stamped with the decoding time.
   */
  lemma DecodeRoundTrip(s: LsaState, header: seq<Byte>, npl: map<Name, PrefixInfo>, services: map<Name, ServiceFunctionInfo>,
                        nplOrder: seq<Name>, svcOrder: seq<Name>, now: int)
    requires Writable(header, npl, services)
    requires Enumerates(nplOrder, npl.Keys) && Enumerates(svcOrder, services.Keys)
    requires forall n :: n in services ==> |n| > 0 && services[n].usageCount == 0
    ensures var block := EncodeRecord(header, npl, services, nplOrder, svcOrder);
            Decode(s, block, now) == (LsaState(header, npl, Stamped(services, now), Some(block)), None)
  {
    PrefixElementsRun(npl, nplOrder, now);
    ServiceElementsRun(services, svcOrder, now);
    RunsRoundTrip(s, header, PrefixElements(npl, nplOrder), ServiceElements(services, svcOrder), npl, services, nplOrder, svcOrder, now);
  }

  // ---------------------------------------------------------------------
  // Merging a newer advertisement
  // ---------------------------------------------------------------------

  /** The incoming prefixes whose names are new. */
  function AddedNames(current: map<Name, PrefixInfo>, incoming: map<Name, PrefixInfo>): map<Name, PrefixInfo>
  {
    map n | n in incoming && n !in current :: incoming[n]
  }

  /** The current prefixes whose names the incoming advertisement no longer has. */
  function RemovedNames(current: map<Name, PrefixInfo>, incoming: map<Name, PrefixInfo>): map<Name, PrefixInfo>
  {
    map n | n in current && n !in incoming :: current[n]
  }

  /** The prefix list after the merge: only names are compared, so a name in both keeps its PrefixInfo. */
  function MergedNames(current: map<Name, PrefixInfo>, incoming: map<Name, PrefixInfo>): map<Name, PrefixInfo>
  {
    map n | n in incoming :: if n in current then current[n] else incoming[n]
  }

  /** The `!=` of the six compared fields; the time stamp is not compared. */
  predicate Differs(a: ServiceFunctionInfo, b: ServiceFunctionInfo)
  {
    !FloatEq(a.processingTime, b.processingTime) || !FloatEq(a.load, b.load) || a.usageCount != b.usageCount
    || !FloatEq(a.processingWeight, b.processingWeight) || !FloatEq(a.loadWeight, b.loadWeight)
    || !FloatEq(a.usageWeight, b.usageWeight)
  }

  /** The incoming record for n is new or differs from the current one. */
  predicate ChangedAt(current: map<Name, ServiceFunctionInfo>, incoming: map<Name, ServiceFunctionInfo>, n: Name)
    requires n in incoming
  {
    n !in current || Differs(current[n], incoming[n])
  }

  /** The record kept for an incoming service: the incoming one when it changed, else the current one. */
  function Kept(current: map<Name, ServiceFunctionInfo>, incoming: map<Name, ServiceFunctionInfo>, n: Name): ServiceFunctionInfo
    requires n in incoming
  {
    if ChangedAt(current, incoming, n) then incoming[n] else current[n]
  }

  /** The service records after the merge; an incoming advertisement without any keeps the current ones. */
  function MergedServices(current: map<Name, ServiceFunctionInfo>, incoming: map<Name, ServiceFunctionInfo>): map<Name, ServiceFunctionInfo>
  {
    if incoming == map[] then current else map n | n in incoming :: Kept(current, incoming, n)
  }

  /** The service names whose record the merge adds or replaces. */
  function ChangedServices(current: map<Name, ServiceFunctionInfo>, incoming: map<Name, ServiceFunctionInfo>): set<Name>
  {
    set n | n in incoming && ChangedAt(current, incoming, n)
  }

  /** The merge adds, replaces or erases some service record. */
  predicate ServicesChanged(current: map<Name, ServiceFunctionInfo>, incoming: map<Name, ServiceFunctionInfo>)
  {
    ChangedServices(current, incoming) != {} || (incoming != map[] && current.Keys - incoming.Keys != {})
  }

  /** The new prefix list is the old one without the removed names and with the added ones. */
  lemma MergedNamesSplit(current: map<Name, PrefixInfo>, incoming: map<Name, PrefixInfo>)
    ensures AddedNames(current, incoming).Keys !! current.Keys
    ensures RemovedNames(current, incoming).Keys <= current.Keys
    ensures MergedNames(current, incoming) == (current - RemovedNames(current, incoming).Keys) + AddedNames(current, incoming)
    ensures Keyed(current) && Keyed(incoming) ==> Keyed(MergedNames(current, incoming))
  {
    var m := MergedNames(current, incoming);
    var r := (current - RemovedNames(current, incoming).Keys) + AddedNames(current, incoming);
    assert m.Keys == r.Keys;
    assert forall n :: n in m ==> m[n] == r[n];
  }

  /** A merge that changes nothing keeps both maps as they were. */
  lemma UnchangedMerge(cur: map<Name, PrefixInfo>, inc: map<Name, PrefixInfo>,
                       curSvc: map<Name, ServiceFunctionInfo>, incSvc: map<Name, ServiceFunctionInfo>)
    requires AddedNames(cur, inc) == map[] && RemovedNames(cur, inc) == map[] && !ServicesChanged(curSvc, incSvc)
    ensures MergedNames(cur, inc) == cur && MergedServices(curSvc, incSvc) == curSvc
  {
    forall n | n in cur
      ensures n in inc
    {
      assert n !in RemovedNames(cur, inc);
    }
    forall n | n in inc
      ensures n in cur
    {
      assert n !in AddedNames(cur, inc);
    }
    if incSvc != map[] {
      forall n | n in incSvc
        ensures n in curSvc && Kept(curSvc, incSvc, n) == curSvc[n]
      {
        assert n !in ChangedServices(curSvc, incSvc);
      }
      forall n | n in curSvc
        ensures n in incSvc
      {
        assert n !in curSvc.Keys - incSvc.Keys;
      }
    }
  }

  /** No field of any incoming record is a NaN. */
  predicate NoNaN(services: map<Name, ServiceFunctionInfo>)
  {
    forall n :: n in services ==>
      (!IsNaN(services[n].processingTime) && !IsNaN(services[n].load) && !IsNaN(services[n].processingWeight)
       && !IsNaN(services[n].loadWeight) && !IsNaN(services[n].usageWeight))
  }

  /** Merging the same advertisement a second time finds nothing to do when it carries no NaN. */
  lemma MergeTwice(cur: map<Name, PrefixInfo>, inc: map<Name, PrefixInfo>,
                   curSvc: map<Name, ServiceFunctionInfo>, incSvc: map<Name, ServiceFunctionInfo>)
    requires NoNaN(incSvc)
    ensures var once := MergedNames(cur, inc);
            AddedNames(once, inc) == map[] && RemovedNames(once, inc) == map[] && MergedNames(once, inc) == once
    ensures var once := MergedServices(curSvc, incSvc);
            !ServicesChanged(once, incSvc) && MergedServices(once, incSvc) == once
  {
    var once := MergedNames(cur, inc);
    assert AddedNames(once, inc) == map[];
    assert RemovedNames(once, inc) == map[];
    var onceSvc := MergedServices(curSvc, incSvc);
    forall n | n in incSvc
      ensures !ChangedAt(onceSvc, incSvc, n)
    {
      var a, b := onceSvc[n], incSvc[n];
      if ChangedAt(curSvc, incSvc, n) {
        FloatEqReflexive(b.processingTime);
        FloatEqReflexive(b.load);
        FloatEqReflexive(b.processingWeight);
        FloatEqReflexive(b.loadWeight);
        FloatEqReflexive(b.usageWeight);
      }
    }
    assert ChangedServices(onceSvc, incSvc) == {};
    UnchangedMerge(once, inc, onceSvc, incSvc);
  }

  /** A NaN processing time is never equal to itself, so every merge of that record reports a change. */
  lemma NaNAlwaysChanges(curSvc: map<Name, ServiceFunctionInfo>, incSvc: map<Name, ServiceFunctionInfo>, n: Name)
    requires n in incSvc && IsNaN(incSvc[n].processingTime)
    ensures ServicesChanged(curSvc, incSvc)
    ensures ServicesChanged(MergedServices(curSvc, incSvc), incSvc)
  {
    assert n in ChangedServices(curSvc, incSvc);
    assert n in ChangedServices(MergedServices(curSvc, incSvc), incSvc);
  }

  /** The service records once the incoming names in done have been merged. */
  function PartialMerge(current: map<Name, ServiceFunctionInfo>, incoming: map<Name, ServiceFunctionInfo>, done: set<Name>): (m: map<Name, ServiceFunctionInfo>)
    requires done <= incoming.Keys
    ensures m.Keys == current.Keys + done
  {
    map n | n in current.Keys + done :: if n in done then Kept(current, incoming, n) else current[n]
  }

  /** Merging one more incoming name, n from the names still to do, replaces its record exactly when it changed. */
  lemma PartialMergeStep(current: map<Name, ServiceFunctionInfo>, incoming: map<Name, ServiceFunctionInfo>, todo: set<Name>, n: Name)
    requires todo <= incoming.Keys && n in todo
    ensures var m := PartialMerge(current, incoming, incoming.Keys - todo);
            (n in m <==> n in current) && (n in m ==> m[n] == current[n])
            && PartialMerge(current, incoming, incoming.Keys - (todo - {n}))
               == if ChangedAt(current, incoming, n) then m[n := incoming[n]] else m
  {
    assert incoming.Keys - (todo - {n}) == (incoming.Keys - todo) + {n};
  }

  /** The two loops of the service merge, taken together, give MergedServices. */
  lemma MergedServicesAre(current: map<Name, ServiceFunctionInfo>, incoming: map<Name, ServiceFunctionInfo>,
                          merged: map<Name, ServiceFunctionInfo>, m: map<Name, ServiceFunctionInfo>)
    requires incoming != map[]
    requires merged.Keys == current.Keys + incoming.Keys
    requires forall n :: n in merged ==> merged[n] == if n in incoming then Kept(current, incoming, n) else current[n]
    requires m == merged - (merged.Keys - incoming.Keys)
    ensures m == MergedServices(current, incoming)
    ensures merged.Keys - incoming.Keys == current.Keys - incoming.Keys
  {
    assert m.Keys == incoming.Keys;
  }

  lemma MinusTwiceService(m: map<Name, ServiceFunctionInfo>, gone: set<Name>, n: Name)
    ensures (m - gone) - {n} == m - (gone + {n})
  {
  }

  lemma MinusTwice(m: map<Name, PrefixInfo>, gone: set<Name>, n: Name)
    ensures (m - gone) - {n} == m - (gone + {n})
  {
  }

  lemma PlusUpdate(m: map<Name, PrefixInfo>, extra: map<Name, PrefixInfo>, n: Name, p: PrefixInfo)
    ensures (m + extra)[n := p] == m + extra[n := p]
  {
  }

  lemma AddedNamesAre(current: map<Name, PrefixInfo>, incoming: map<Name, PrefixInfo>, m: map<Name, PrefixInfo>)
    requires m.Keys == incoming.Keys - current.Keys && forall x :: x in m ==> m[x] == incoming[x]
    ensures m == AddedNames(current, incoming)
  {
  }

  lemma RemovedNamesAre(current: map<Name, PrefixInfo>, incoming: map<Name, PrefixInfo>, m: map<Name, PrefixInfo>)
    requires m.Keys == current.Keys - incoming.Keys && forall x :: x in m ==> m[x] == current[x]
    ensures m == RemovedNames(current, incoming)
  {
  }

  /** Adding the new names and then removing the stale ones is the merge. */
  lemma MergeAddRemove(current: map<Name, PrefixInfo>, incoming: map<Name, PrefixInfo>)
    ensures RemovedNames(current + AddedNames(current, incoming), incoming) == RemovedNames(current, incoming)
    ensures (current + AddedNames(current, incoming)) - RemovedNames(current, incoming).Keys == MergedNames(current, incoming)
  {
    var added := current + AddedNames(current, incoming);
    assert RemovedNames(added, incoming).Keys == RemovedNames(current, incoming).Keys;
    var m := added - RemovedNames(current, incoming).Keys;
    assert m.Keys == MergedNames(current, incoming).Keys;
  }

  // ---------------------------------------------------------------------
  // The record
  // ---------------------------------------------------------------------

  class NameLsa {
    var header: seq<Byte>
    var npl: map<Name, PrefixInfo>
    var services: map<Name, ServiceFunctionInfo>
    var wire: Option<Element>

    function State(): LsaState
      reads this
    {
      LsaState(header, npl, services, wire)
    }

    /** NameLsa(originRouter, seqNo, timepoint, npl): the given prefixes, no service records, nothing cached. */
    constructor (header: seq<Byte>, npl: map<Name, PrefixInfo>)
      ensures this.header == header && this.npl == npl && services == map[] && wire == None
    {
      this.header := header;
      this.npl := npl;
      services := map[];
      wire := None;
    }

    /** setServiceFunctionInfo: records info for name and drops the cached encoding. */
    method SetServiceFunctionInfo(name: Name, info: ServiceFunctionInfo)
      modifies this
      ensures services == old(services)[name := info] && wire == None
      ensures header == old(header) && npl == old(npl)
    {
      wire := None;
      services := services[name := info];
    }

    /** getServiceFunctionInfo: the record for name, or the value-initialised record when there is none. */
    function GetServiceFunctionInfo(name: Name): (info: ServiceFunctionInfo)
      reads this
      ensures name in services ==> info == services[name]
      ensures name !in services ==> info == UNSET_INFO
    {
      ServiceInfoFor(services, name)
    }

    /** addName: inserts p unless its name is present, and drops the cached encoding. */
    method AddName(p: PrefixInfo)
      modifies this
      ensures npl == InsertFirst(old(npl), p) && wire == None
      ensures header == old(header) && services == old(services)
    {
      wire := None;
      npl := InsertFirst(npl, p);
    }

    /** removeName: removes the entry for p's name and drops the cached encoding. */
    method RemoveName(p: PrefixInfo)
      modifies this
      ensures npl == old(npl) - {p.name} && wire == None
      ensures header == old(header) && services == old(services)
    {
      wire := None;
      npl := npl - {p.name};
    }

    /**
     * wireEncode: the cached block when there is one; otherwise the record
     * encoded in some iteration order of each map, which becomes the cache.
     * The service records are prepended one by one, each field by field
     * from the last to the first, then the prefixes, then the header.
     */
    method WireEncode() returns (block: Element, ghost nplOrder: seq<Name>, ghost svcOrder: seq<Name>)
      requires Writable(header, npl, services)
      modifies this
      ensures header == old(header) && npl == old(npl) && services == old(services)
      ensures old(wire).Some? ==> block == old(wire).value && wire == old(wire)
      ensures old(wire).None? ==> Enumerates(nplOrder, npl.Keys) && Enumerates(svcOrder, services.Keys)
                                  && block == EncodeRecord(header, npl, services, nplOrder, svcOrder) && wire == Some(block)
    {
      if wire.Some? {
        return wire.value, [], [];
      }
      block, nplOrder, svcOrder := EncodeBlock(header, npl, services);
      wire := Some(block);
    }

    /**
     * wireDecode: caches the block, then decodes the header and the
     * elements after it, stopping at the first malformed one.
     */
    method WireDecode(block: Element, now: int) returns (err: Option<DecodeError>)
      modifies this
      ensures (State(), err) == Decode(old(State()), block, now)
    {
      wire := Some(block);
      if block.typ != NAME_LSA_TYPE {
        return Some(WrongType(block.typ));
      }
      var parsed := ParseElements(block.value);
      if parsed.None? {
        return Some(Malformed);
      }
      var es := parsed.value;
      if |es| == 0 || es[0].typ != LSA_TYPE {
        return Some(MissingLsa);
      }
      header := es[0].value;
      var decoded, failed := AbsorbElements(es[1..], now);
      if failed {
        return Some(Malformed);
      }
      npl := decoded;
      return None;
    }

    /**
     * The loop of wireDecode over the elements after the header: prefixes
     * gather in a fresh list, service records go straight into the map,
     * which starts empty; a malformed element stops the loop.
     */
    method AbsorbElements(es: seq<Element>, now: int) returns (decoded: map<Name, PrefixInfo>, failed: bool)
      modifies this
      ensures Body(decoded, services, failed) == AbsorbAll(Classified(es, now))
      ensures header == old(header) && npl == old(npl) && wire == old(wire)
    {
      decoded := map[];
      services := map[];
      ghost var items := Classified(es, now);
      var i := 0;
      while i < |es|
        invariant 0 <= i <= |es|
        invariant AbsorbAll(items[..i]) == Body(decoded, services, false)
        invariant header == old(header) && npl == old(npl) && wire == old(wire)
      {
        AbsorbStep(items, i);
        var stop;
        decoded, stop := AbsorbElement(es[i], now, decoded);
        if stop {
          FailedStays(items, i + 1);
          return decoded, true;
        }
        i := i + 1;
      }
      assert items[..i] == items;
      failed := false;
    }

    /** One element after the header, as the loop of wireDecode handles it. */
    method AbsorbElement(e: Element, now: int, decoded0: map<Name, PrefixInfo>) returns (decoded: map<Name, PrefixInfo>, failed: bool)
      modifies this
      ensures Body(decoded, services, failed) == Absorb(Body(decoded0, old(services), false), Classify(e, now))
      ensures header == old(header) && npl == old(npl) && wire == old(wire)
    {
      decoded, failed := decoded0, false;
      if e.typ == PREFIX_INFO_TYPE {
        var p := DecodePrefixInfo(e.value);
        if p.None? {
          return decoded, true;
        }
        decoded := InsertFirst(decoded, p.value);
      } else if e.typ == SERVICE_FUNCTION_TYPE {
        var r := DecodeService(e.value, now);
        if r.ServiceFailed? {
          return decoded, true;
        }
        if r.ServiceDecoded? {
          services := services[r.name := r.info];
        }
      }
    }

    /** update, first step: every incoming name not yet listed goes in through addName. */
    method AddNewNames(incoming: map<Name, PrefixInfo>) returns (namesToAdd: map<Name, PrefixInfo>)
      requires Keyed(incoming)
      modifies this
      ensures namesToAdd == AddedNames(old(npl), incoming)
      ensures npl == old(npl) + namesToAdd
      ensures header == old(header) && services == old(services)
      ensures wire == if namesToAdd == map[] then old(wire) else None
    {
      var current := npl;
      namesToAdd := map[];
      var todo := incoming.Keys - npl.Keys;
      ghost var added: set<Name> := {};
      while todo != {}
        invariant added !! todo && added + todo == incoming.Keys - current.Keys
        invariant namesToAdd.Keys == added && forall x :: x in added ==> namesToAdd[x] == incoming[x]
        invariant npl == current + namesToAdd
        invariant wire == if added == {} then old(wire) else None
        invariant header == old(header) && services == old(services)
        decreases todo
      {
        var n :| n in todo;
        assert n !in npl && incoming[n].name == n;
        PlusUpdate(current, namesToAdd, n, incoming[n]);
        namesToAdd := namesToAdd[n := incoming[n]];
        AddName(incoming[n]);
        todo := todo - {n};
        added := added + {n};
      }
      AddedNamesAre(current, incoming, namesToAdd);
    }

    /** update, second step: every listed name the incoming advertisement lacks goes out through removeName. */
    method RemoveStaleNames(incoming: map<Name, PrefixInfo>) returns (namesToRemove: map<Name, PrefixInfo>)
      requires Keyed(npl)
      modifies this
      ensures namesToRemove == RemovedNames(old(npl), incoming)
      ensures npl == old(npl) - namesToRemove.Keys
      ensures header == old(header) && services == old(services)
      ensures wire == if namesToRemove == map[] then old(wire) else None
    {
      var current := npl;
      namesToRemove := map[];
      var gone := current.Keys - incoming.Keys;
      ghost var removed: set<Name> := {};
      while gone != {}
        invariant removed !! gone && removed + gone == current.Keys - incoming.Keys
        invariant namesToRemove.Keys == removed && forall x :: x in removed ==> namesToRemove[x] == current[x]
        invariant npl == current - removed
        invariant wire == if removed == {} then old(wire) else None
        invariant header == old(header) && services == old(services)
        decreases gone
      {
        var n :| n in gone;
        namesToRemove := namesToRemove[n := current[n]];
        RemoveName(current[n]);
        MinusTwice(current, removed, n);
        gone := gone - {n};
        removed := removed + {n};
      }
      RemovedNamesAre(current, incoming, namesToRemove);
    }

    /** update: the service-record steps of a merge; the cached encoding is left as it was. */
    method MergeServices(incoming: map<Name, ServiceFunctionInfo>) returns (changed: bool)
      modifies this
      ensures services == MergedServices(old(services), incoming)
      ensures changed == ServicesChanged(old(services), incoming)
      ensures header == old(header) && npl == old(npl) && wire == old(wire)
    {
      ghost var current := services;
      changed := MergeIncomingServices(incoming);
      if incoming != map[] {
        ghost var merged := services;
        var erased := EraseMissingServices(incoming);
        MergedServicesAre(current, incoming, merged, services);
        changed := changed || erased;
      } else {
        assert services.Keys == current.Keys;
      }
    }

    /** update, services: every incoming record that is new or differs replaces the current one. */
    method MergeIncomingServices(incoming: map<Name, ServiceFunctionInfo>) returns (changed: bool)
      modifies this
      ensures services.Keys == old(services).Keys + incoming.Keys
      ensures forall n :: n in services ==> services[n] == if n in incoming then Kept(old(services), incoming, n) else old(services)[n]
      ensures changed == (ChangedServices(old(services), incoming) != {})
      ensures header == old(header) && npl == old(npl) && wire == old(wire)
    {
      ghost var current := services;
      changed := false;
      ghost var flagged: set<Name> := {};
      var todo := incoming.Keys;
      while todo != {}
        invariant todo <= incoming.Keys
        invariant services == PartialMerge(current, incoming, incoming.Keys - todo)
        invariant flagged <= ChangedServices(current, incoming)
        invariant forall n :: n in incoming && n !in todo && ChangedAt(current, incoming, n) ==> n in flagged
        invariant changed == (flagged != {})
        invariant header == old(header) && npl == old(npl) && wire == old(wire)
        decreases todo
      {
        var n :| n in todo;
        PartialMergeStep(current, incoming, todo, n);
        if n !in services || Differs(services[n], incoming[n]) {
          services := services[n := incoming[n]];
          changed := true;
          flagged := flagged + {n};
        }
        todo := todo - {n};
      }
      assert incoming.Keys - todo == incoming.Keys;
      if ChangedServices(current, incoming) != {} {
        var x :| x in ChangedServices(current, incoming);
        assert x in flagged;
      }
    }

    /** update, services: the records the incoming advertisement no longer lists are erased. */
    method EraseMissingServices(incoming: map<Name, ServiceFunctionInfo>) returns (erased: bool)
      modifies this
      ensures services == old(services) - (old(services).Keys - incoming.Keys)
      ensures erased == (old(services).Keys - incoming.Keys != {})
      ensures header == old(header) && npl == old(npl) && wire == old(wire)
    {
      var stale := services.Keys - incoming.Keys;
      erased := stale != {};
      var extra := stale;
      while extra != {}
        invariant extra <= stale
        invariant services == old(services) - (stale - extra)
        invariant header == old(header) && npl == old(npl) && wire == old(wire)
        decreases extra
      {
        var n :| n in extra;
        MinusTwiceService(old(services), stale - extra, n);
        services := services - {n};
        extra := extra - {n};
        assert stale - extra == (stale - (extra + {n})) + {n};
      }
      assert stale - extra == stale;
    }

    /**
     * update: merges a newer advertisement of the same router and reports
     * whether anything changed, with the prefixes added and removed.
     * The incoming maps are read before anything changes.
     */
    method Update(other: NameLsa) returns (updated: bool, namesToAdd: map<Name, PrefixInfo>, namesToRemove: map<Name, PrefixInfo>)
      requires Keyed(npl) && Keyed(other.npl)
      modifies this
      ensures namesToAdd == AddedNames(old(npl), old(other.npl)) && namesToRemove == RemovedNames(old(npl), old(other.npl))
      ensures npl == MergedNames(old(npl), old(other.npl))
      ensures services == MergedServices(old(services), old(other.services))
      ensures header == old(header)
      ensures wire == if namesToAdd == map[] && namesToRemove == map[] then old(wire) else None
      ensures updated <==> namesToAdd != map[] || namesToRemove != map[] || ServicesChanged(old(services), old(other.services))
    {
      var incoming := other.npl;
      var incomingSvc := other.services;
      ghost var current := npl;
      namesToAdd := AddNewNames(incoming);
      namesToRemove := RemoveStaleNames(incoming);
      MergeAddRemove(current, incoming);
      var svcChanged := MergeServices(incomingSvc);
      updated := namesToAdd != map[] || namesToRemove != map[] || svcChanged;
    }
  }

  /** order lists, once each, the keys the loop has taken out of todo so far. */
  predicate Partial(order: seq<Name>, keys: set<Name>, todo: set<Name>)
  {
    (forall k :: 0 <= k < |order| ==> order[k] in keys && order[k] !in todo)
    && (forall x :: x in keys && x !in todo ==> x in order)
    && (forall i, j :: 0 <= i < j < |order| ==> order[i] != order[j])
  }

  lemma PartialStep(order: seq<Name>, keys: set<Name>, todo: set<Name>, n: Name)
    requires Partial(order, keys, todo) && n in todo && todo <= keys
    ensures Partial([n] + order, keys, todo - {n})
  {
    var o := [n] + order;
    forall i, j | 0 <= i < j < |o|
      ensures o[i] != o[j]
    {
      assert o[j] == order[j - 1];
      if i > 0 {
        assert o[i] == order[i - 1];
      }
    }
  }

  lemma ServiceElementsCons(services: map<Name, ServiceFunctionInfo>, n: Name, order: seq<Name>)
    requires n in services && ServiceEncodable(n, services[n])
    requires forall k :: 0 <= k < |order| ==> order[k] in services && ServiceEncodable(order[k], services[order[k]])
    ensures EncodeElements(ServiceElements(services, [n] + order))
         == EncodeElement(ServiceElement(n, services[n])) + EncodeElements(ServiceElements(services, order))
  {
    var es := ServiceElements(services, order);
    assert ServiceElements(services, [n] + order) == [ServiceElement(n, services[n])] + es;
    EncodeCons(ServiceElement(n, services[n]), es);
  }

  lemma PrefixElementsCons(npl: map<Name, PrefixInfo>, n: Name, order: seq<Name>)
    requires n in npl && PrefixEncodable(npl[n])
    requires forall k :: 0 <= k < |order| ==> order[k] in npl && PrefixEncodable(npl[order[k]])
    ensures EncodeElements(PrefixElements(npl, [n] + order))
         == EncodeElement(PrefixElement(npl[n])) + EncodeElements(PrefixElements(npl, order))
  {
    var es := PrefixElements(npl, order);
    assert PrefixElements(npl, [n] + order) == [PrefixElement(npl[n])] + es;
    EncodeCons(PrefixElement(npl[n]), es);
  }

  /**
   * The templated wireEncode on a fresh buffer: the service records, then
   * the prefixes, then the header, prepended in turn and wrapped in a
   * Name LSA element.
   */
  method EncodeBlock(header: seq<Byte>, npl: map<Name, PrefixInfo>, services: map<Name, ServiceFunctionInfo>)
    returns (block: Element, ghost nplOrder: seq<Name>, ghost svcOrder: seq<Name>)
    requires Writable(header, npl, services)
    ensures Enumerates(nplOrder, npl.Keys) && Enumerates(svcOrder, services.Keys)
    ensures block == EncodeRecord(header, npl, services, nplOrder, svcOrder)
  {
    var svcBuf, svcs := EncodeServices(services);
    var nplBuf, names := EncodePrefixes(npl);
    nplOrder, svcOrder := names, svcs;
    var lsa := Element(LSA_TYPE, header);
    var ps := PrefixElements(npl, nplOrder);
    var ss := ServiceElements(services, svcOrder);
    EncodeCons(lsa, ps);
    EncodeElementsAppend([lsa] + ps, ss);
    assert RecordElements(header, npl, services, nplOrder, svcOrder) == ([lsa] + ps) + ss;
    assert EncodeElements([lsa] + ps) == EncodeElement(lsa) + nplBuf;
    block := Element(NAME_LSA_TYPE, EncodeElement(lsa) + nplBuf + svcBuf);
  }

  /** The service-record loop of wireEncode: every record prepended in turn, in some iteration order. */
  method EncodeServices(services: map<Name, ServiceFunctionInfo>) returns (buf: seq<Byte>, ghost order: seq<Name>)
    requires forall n :: n in services ==> ServiceEncodable(n, services[n])
    ensures Enumerates(order, services.Keys)
    ensures buf == EncodeElements(ServiceElements(services, order))
  {
    buf := [];
    order := [];
    var todo := services.Keys;
    while todo != {}
      invariant todo <= services.Keys && Partial(order, services.Keys, todo)
      invariant buf == EncodeElements(ServiceElements(services, order))
      decreases todo
    {
      var n :| n in todo;
      var sfBuf := PrependService(n, services[n]);
      ServiceElementsCons(services, n, order);
      buf := sfBuf + buf;
      PartialStep(order, services.Keys, todo, n);
      order := [n] + order;
      todo := todo - {n};
    }
  }

  /** The prefix loop of wireEncode: every PrefixInfo prepended in turn, in some iteration order. */
  method EncodePrefixes(npl: map<Name, PrefixInfo>) returns (buf: seq<Byte>, ghost order: seq<Name>)
    requires forall n :: n in npl ==> PrefixEncodable(npl[n])
    ensures Enumerates(order, npl.Keys)
    ensures buf == EncodeElements(PrefixElements(npl, order))
  {
    buf := [];
    order := [];
    var todo := npl.Keys;
    while todo != {}
      invariant todo <= npl.Keys && Partial(order, npl.Keys, todo)
      invariant buf == EncodeElements(PrefixElements(npl, order))
      decreases todo
    {
      var n :| n in todo;
      PrefixElementsCons(npl, n, order);
      buf := EncodeElement(PrefixElement(npl[n])) + buf;
      PartialStep(order, npl.Keys, todo, n);
      order := [n] + order;
      todo := todo - {n};
    }
  }

  lemma Regroup8(a: seq<Byte>, b: seq<Byte>, c: seq<Byte>, d: seq<Byte>, e: seq<Byte>, f: seq<Byte>, g: seq<Byte>, h: seq<Byte>)
    ensures a + (b + (c + (d + (e + (f + (g + h)))))) == a + b + c + d + e + f + g + h
  {
  }

  /** One ServiceFunction element, its fields prepended from the last to the first as the encoder does. */
  method PrependService(n: Name, info: ServiceFunctionInfo) returns (b: seq<Byte>)
    requires ServiceEncodable(n, info)
    ensures b == EncodeElement(ServiceElement(n, info))
  {
    Pow256Widths();
    var uw := DoubleBlock(USAGE_WEIGHT_TYPE, info.usageWeight);
    var lw := DoubleBlock(LOAD_WEIGHT_TYPE, info.loadWeight);
    var pw := DoubleBlock(PROCESSING_WEIGHT_TYPE, info.processingWeight);
    var pt := DoubleBlock(PROCESSING_TIME_TYPE, info.processingTime);
    var ld := DoubleBlock(LOAD_TYPE, info.load);
    var count := EncodeVarNumber(info.usageCount as nat);
    var countType := EncodeVarNumber(USAGE_COUNT_TYPE);
    var name := EncodeElement(NameElement(n));
    var v := uw;
    v := lw + v;
    v := pw + v;
    v := pt + v;
    v := ld + v;
    v := count + v;
    v := countType + v;
    v := name + v;
    Regroup8(name, countType, count, ld, pt, pw, lw, uw);
    assert v == ServiceValue(n, info);
    b := EncodeVarNumber(SERVICE_FUNCTION_TYPE) + EncodeVarNumber(|v|) + v;
  }
}
