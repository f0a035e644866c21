/**
 * Record extraction (`parse_xml_to_data`): every `Rit` element below the
 * document root that has a `Data` child becomes one trip record of eleven
 * fields, in document order.
 */
module Ritten {
  import opened Wrappers
  import opened XmlTree

  /** The namespace URI that the `ns:` prefix of the queries stands for. */
  const NS: string := "http://www.ritadministratie.org"

  /** The expanded name that `ns:local` stands for in the queries. */
  function Tag(local: string): QName {
    QName(NS, local)
  }

  /**
   * A field value: the element's text; `None` when the element is present
   * but has no text; `Some("")` when the element or its parent is absent.
   */
  type Value = Option<string>

  /** One trip record, a dict with the eleven keys of `FieldKeys`. */
  datatype Rit = Rit(
    ritId: Value,
    datumTijdRegistratie: Value,
    ritType: Value,
    bestuurderId: Value,
    kmStandBegin: Value,
    kmStandEind: Value,
    prijs: Value,
    latitudeBegin: Value,
    longitudeBegin: Value,
    latitudeEind: Value,
    longitudeEind: Value)

  /** The record's keys, in the order the dict is filled (and so the order of `rit.values()`). */
  const FieldKeys: seq<string> := [
    "rit_id", "datum_tijd_registratie", "type", "bestuurder_id", "km_stand_begin",
    "km_stand_eind", "prijs", "latitude_begin", "longitude_begin", "latitude_eind",
    "longitude_eind"]

  /** `rit.values()`: one value per key of `FieldKeys`, in that order. */
  function Values(r: Rit): (vs: seq<Value>)
    ensures |vs| == |FieldKeys|
  {
    [r.ritId, r.datumTijdRegistratie, r.ritType, r.bestuurderId, r.kmStandBegin,
     r.kmStandEind, r.prijs, r.latitudeBegin, r.longitudeBegin, r.latitudeEind,
     r.longitudeEind]
  }

  /**
   * Where the value of key `i` lives below the `Data` element: the local name
   * of the element, preceded by that of its parent for the nested fields.
   */
  function FieldPath(i: nat): (path: seq<string>)
    requires i < |FieldKeys|
    ensures 1 <= |path| <= 2
  {
    match i
    case 0 => ["RtVgNr"]
    case 1 => ["DatTdReg"]
    case 2 => ["Type"]
    case 3 => ["Bestuurder", "ChIdNr"]
    case 4 => ["KmStdBeg"]
    case 5 => ["KmStdEnd"]
    case 6 => ["Prijs"]
    case 7 => ["LocBeg", "Lat"]
    case 8 => ["LocBeg", "Lon"]
    case 9 => ["LocEnd", "Lat"]
    case _ => ["LocEnd", "Lon"]
  }

  /** `x.text if x is not None else ""`. */
  function TextOrEmpty(x: Option<Element>): Value {
    match x
    case None => Some("")
    case Some(e) => e.text
  }

  /**
   * The value found by walking `path` down from `e`, one `find` per step:
   * the text of the last element, or `""` as soon as a step finds nothing.
   */
  function Lookup(e: Element, path: seq<string>): Value
    requires path != []
    decreases |path|
  {
    var child := Find(e, Tag(path[0]));
    if child.None? then Some("")
    else if |path| == 1 then child.value.text
    else Lookup(child.value, path[1..])
  }

  /** A field read straight below `Data` (lines 35-42, 53-61). */
  function Direct(data: Element, local: string): Value {
    TextOrEmpty(Find(data, Tag(local)))
  }

  /** A field read below a parent element of `Data`, `""` when the parent is absent (lines 45-50, 64-83). */
  function Nested(data: Element, parent: string, local: string): Value {
    var p := Find(data, Tag(parent));
    if p.Some? then TextOrEmpty(Find(p.value, Tag(local))) else Some("")
  }

  /** The record read from one `Data` element, field by field. */
  function ExtractRit(data: Element): Rit {
    Rit(
      ritId := Direct(data, "RtVgNr"),
      datumTijdRegistratie := Direct(data, "DatTdReg"),
      ritType := Direct(data, "Type"),
      bestuurderId := Nested(data, "Bestuurder", "ChIdNr"),
      kmStandBegin := Direct(data, "KmStdBeg"),
      kmStandEind := Direct(data, "KmStdEnd"),
      prijs := Direct(data, "Prijs"),
      latitudeBegin := Nested(data, "LocBeg", "Lat"),
      longitudeBegin := Nested(data, "LocBeg", "Lon"),
      latitudeEind := Nested(data, "LocEnd", "Lat"),
      longitudeEind := Nested(data, "LocEnd", "Lon"))
  }

  /** A one-step path reads the child's text, or `""` when the child is absent. */
  lemma LookupOneStep(e: Element, name: string)
    ensures Lookup(e, [name]) == Direct(e, name)
  {
  }

  /** A two-step path reads the grandchild's text, or `""` when the parent or the grandchild is absent. */
  lemma LookupTwoSteps(e: Element, parent: string, name: string)
    ensures Lookup(e, [parent, name]) == Nested(e, parent, name)
  {
    assert [parent, name][1..] == [name];
    if Find(e, Tag(parent)).Some? {
      LookupOneStep(Find(e, Tag(parent)).value, name);
    }
  }

  /**
   * Each of the eleven hand-written field reads agrees with the walk along
   * that key's path: the text of the element, `None` for an element without
   * text, and `""` when the element or its parent is absent.
   */
  lemma ExtractRitFollowsPath(data: Element, i: nat)
    requires i < |FieldKeys|
    ensures Values(ExtractRit(data))[i] == Lookup(data, FieldPath(i))
  {
    var r := ExtractRit(data);
    match i
    case 0 =>
      LookupOneStep(data, "RtVgNr");
    case 1 =>
      LookupOneStep(data, "DatTdReg");
    case 2 =>
      LookupOneStep(data, "Type");
    case 3 =>
      LookupTwoSteps(data, "Bestuurder", "ChIdNr");
    case 4 =>
      LookupOneStep(data, "KmStdBeg");
    case 5 =>
      LookupOneStep(data, "KmStdEnd");
    case 6 =>
      LookupOneStep(data, "Prijs");
    case 7 =>
      LookupTwoSteps(data, "LocBeg", "Lat");
    case 8 =>
      LookupTwoSteps(data, "LocBeg", "Lon");
    case 9 =>
      LookupTwoSteps(data, "LocEnd", "Lat");
    case _ =>
      LookupTwoSteps(data, "LocEnd", "Lon");
  }

  /**
   * A field whose element is missing, or whose parent element is missing,
   * reads as the empty string, not as an absent value.
   */
  lemma AbsentPathReadsEmpty(data: Element, i: nat)
    requires i < |FieldKeys|
    requires
      || Find(data, Tag(FieldPath(i)[0])).None?
      || (&& |FieldPath(i)| == 2
          && Find(data, Tag(FieldPath(i)[0])).Some?
          && Find(Find(data, Tag(FieldPath(i)[0])).value, Tag(FieldPath(i)[1])).None?)
    ensures Values(ExtractRit(data))[i] == Some("")
  {
    ExtractRitFollowsPath(data, i);
  }

  /** What one `Rit` element contributes: a record when it has a `Data` child, nothing otherwise. */
  function Contribution(rit: Element): (r: seq<Rit>)
    ensures |r| <= 1
    ensures |r| == 1 <==> Find(rit, Tag("Data")).Some?
  {
    match Find(rit, Tag("Data"))
    case None => []
    case Some(data) => [ExtractRit(data)]
  }

  /** The records of the `Rit` elements `rits`, appended one element at a time. */
  function Records(rits: seq<Element>): (r: seq<Rit>)
    ensures |r| <= |rits|
    decreases |rits|
  {
    if rits == [] then []
    else Records(rits[..|rits| - 1]) + Contribution(rits[|rits| - 1])
  }

  /** The records of a parsed document: one per `Rit` element below the root that has a `Data` child. */
  function RittenOf(root: Element): (r: seq<Rit>)
    ensures |r| <= |FindAll(root, Tag("Rit"))|
  {
    Records(FindAll(root, Tag("Rit")))
  }

  /** The document as `ET.fromstring` leaves it: a syntax error, or the root element. */
  datatype Xml = Malformed(reason: string) | WellFormed(root: Element)

  /**
   * `parse_xml_to_data`: a syntax error becomes the `ValueError` message;
   * otherwise the loop over `findall(".//ns:Rit")` appends one record per
   * `Rit` element that has a `Data` child.
   */
  method ParseXmlToData(xml: Xml) returns (res: Result<seq<Rit>, string>)
    ensures xml.Malformed? ==> res == Failure("XML parsing error: " + xml.reason)
    ensures xml.WellFormed? ==> res == Success(RittenOf(xml.root))
  {
    if xml.Malformed? {
      return Failure("XML parsing error: " + xml.reason);
    }
    var rits := FindAll(xml.root, Tag("Rit"));
    var ritten: seq<Rit> := [];
    for i := 0 to |rits|
      invariant ritten == Records(rits[..i])
    {
      var dataElem := Find(rits[i], Tag("Data"));
      if dataElem.Some? {
        RecordsStepData(rits, i, dataElem.value);
        ritten := ritten + [ExtractRit(dataElem.value)];
      } else {
        RecordsStepNoData(rits, i);
      }
    }
    assert rits[..|rits|] == rits;
    return Success(ritten);
  }

  /** The records of two runs of `Rit` elements are those of the first, then those of the second. */
  lemma {:induction false} RecordsAppend(a: seq<Element>, b: seq<Element>)
    ensures Records(a + b) == Records(a) + Records(b)
    decreases |b|
  {
    if b == [] {
      assert a + b == a;
    } else {
      var b' := b[..|b| - 1];
      assert (a + b)[..|a + b| - 1] == a + b';
      assert (a + b)[|a + b| - 1] == b[|b| - 1];
      RecordsAppend(a, b');
    }
  }

  /** Appending one `Rit` element appends its contribution. */
  lemma RecordsSnoc(a: seq<Element>, rit: Element)
    ensures Records(a + [rit]) == Records(a) + Contribution(rit)
  {
    assert (a + [rit])[..|a|] == a;
  }

  /** One more `Rit` element with a `Data` child adds the record read from that child. */
  lemma RecordsStepData(rits: seq<Element>, i: nat, data: Element)
    requires i < |rits| && Find(rits[i], Tag("Data")) == Some(data)
    ensures Records(rits[..i + 1]) == Records(rits[..i]) + [ExtractRit(data)]
  {
    assert rits[..i + 1] == rits[..i] + [rits[i]];
    RecordsSnoc(rits[..i], rits[i]);
  }

  /** One more `Rit` element without a `Data` child adds no record. */
  lemma RecordsStepNoData(rits: seq<Element>, i: nat)
    requires i < |rits| && Find(rits[i], Tag("Data")).None?
    ensures Records(rits[..i + 1]) == Records(rits[..i])
  {
    assert rits[..i + 1] == rits[..i] + [rits[i]];
    RecordsSnoc(rits[..i], rits[i]);
  }

  /** The `Data` children of the `Rit` elements that have one, in order. */
  function DataElements(rits: seq<Element>): (ds: seq<Element>)
    ensures |ds| <= |rits|
    decreases |rits|
  {
    if rits == [] then []
    else
      DataElements(rits[..|rits| - 1])
      + (match Find(rits[|rits| - 1], Tag("Data")) case None => [] case Some(d) => [d])
  }

  /** `recs[i]` is the record read from `ds[i]`, position by position. */
  predicate ReadFrom(recs: seq<Rit>, ds: seq<Element>) {
    |recs| == |ds| && forall i :: 0 <= i < |recs| ==> recs[i] == ExtractRit(ds[i])
  }

  lemma ReadFromSnoc(recs: seq<Rit>, ds: seq<Element>, d: Element)
    requires ReadFrom(recs, ds)
    ensures ReadFrom(recs + [ExtractRit(d)], ds + [d])
  {
  }

  /** Exactly one record per `Rit` element with a `Data` child, read from that child, in the same order. */
  lemma {:induction false} RecordsFromDataElements(rits: seq<Element>)
    ensures |Records(rits)| == |DataElements(rits)|
    ensures forall i :: 0 <= i < |Records(rits)| ==> Records(rits)[i] == ExtractRit(DataElements(rits)[i])
    decreases |rits|
  {
    if rits != [] {
      var init, last := rits[..|rits| - 1], rits[|rits| - 1];
      RecordsFromDataElements(init);
      var recs, ds := Records(init), DataElements(init);
      assert ReadFrom(recs, ds);
      match Find(last, Tag("Data")) {
        case None =>
          assert Records(rits) == recs && DataElements(rits) == ds;
        case Some(d) =>
          ReadFromSnoc(recs, ds, d);
          assert Records(rits) == recs + [ExtractRit(d)];
          assert DataElements(rits) == ds + [d];
          assert ReadFrom(Records(rits), DataElements(rits));
      }
    }
  }
}
