/**
 * Session metadata: the root attributes every resource reads
 * (`BundestagResource._parse_metadata`), the four more that the metadata
 * resource reads (`SessionMetadata._parse_metadata`), and the dictionaries
 * their `to_dict` methods build.
 */
module Metadata {
  import opened Optional
  import opened Xml
  import opened Json

  /** The fields of every resource object; `None` where the root lacks the attribute. */
  datatype Base = Base(
    wahlperiode: Option<string>,
    sitzungNr: Option<string>,
    sitzungDatum: Option<string>,
    sitzungOrt: Option<string>,
    sitzungStart: Option<string>,
    sitzungEnde: Option<string>)

  /** The fields of the metadata resource. */
  datatype Session = Session(
    base: Base,
    herausgeber: Option<string>,
    issn: Option<string>,
    sitzungNaechsteDatum: Option<string>,
    startSeitennr: Option<string>)

  function ParseBase(root: Element): Base {
    Base(Attr(root, "wahlperiode"), Attr(root, "sitzung-nr"), Attr(root, "sitzung-datum"),
         Attr(root, "sitzung-ort"), Attr(root, "sitzung-start-uhrzeit"), Attr(root, "sitzung-ende-uhrzeit"))
  }

  function ParseSession(root: Element): Session {
    Session(ParseBase(root), Attr(root, "herausgeber"), Attr(root, "issn"),
            Attr(root, "sitzung-naechste-datum"), Attr(root, "start-seitennr"))
  }

  /** `BundestagResource.to_dict`. */
  function BaseDict(b: Base): Dict {
    [("wahlperiode", OptStr(b.wahlperiode)),
     ("sitzung_nr", OptStr(b.sitzungNr)),
     ("sitzung_datum", OptStr(b.sitzungDatum)),
     ("sitzung_ort", OptStr(b.sitzungOrt)),
     ("sitzung_start", OptStr(b.sitzungStart)),
     ("sitzung_ende", OptStr(b.sitzungEnde))]
  }

  /** The keys of `BundestagResource.to_dict`, in order. */
  const BaseKeys: seq<string> := ["wahlperiode", "sitzung_nr", "sitzung_datum", "sitzung_ort", "sitzung_start", "sitzung_ende"]

  lemma BaseDictKeys(b: Base)
    ensures Keys(BaseDict(b)) == BaseKeys
  {
  }

  /** A key that is not a metadata key is missing from the base dictionary. */
  lemma BaseLacks(b: Base, k: string)
    requires k !in BaseKeys
    ensures !HasKey(BaseDict(b), k)
  {
    BaseDictKeys(b);
  }

  /** `data[k] = v` for a section key the metadata lacks: the pair goes after
      the six metadata pairs, which stay as they were. */
  lemma AddSection(b: Base, k: string, v: Json)
    requires k !in BaseKeys
    ensures Set(BaseDict(b), k, v) == BaseDict(b) + [(k, v)]
    ensures Keys(Set(BaseDict(b), k, v)) == BaseKeys + [k]
    ensures Get(Set(BaseDict(b), k, v), k) == Some(v)
  {
    BaseDictKeys(b);
    SetKeys(BaseDict(b), k, v);
    SetGet(BaseDict(b), k, v, k);
  }

  /** `d` begins with the six base metadata pairs of `b`. */
  predicate StartsWithBase(d: Dict, b: Base) {
    |d| >= |BaseDict(b)| && d[..|BaseDict(b)|] == BaseDict(b)
  }

  /** The base dictionary followed by anything begins with it. */
  lemma BaseThenMore(b: Base, more: Dict)
    ensures StartsWithBase(BaseDict(b) + more, b)
  {
    assert (BaseDict(b) + more)[..|BaseDict(b)|] == BaseDict(b);
  }

  /** Appending keeps the base pairs at the front. */
  lemma StartsWithBaseAppend(d: Dict, b: Base, more: Dict)
    requires StartsWithBase(d, b)
    ensures StartsWithBase(d + more, b)
  {
    assert (d + more)[..|BaseDict(b)|] == d[..|BaseDict(b)|];
  }

  /** After `data[k] = v` for a section key, any other key the metadata
      lacks is still missing. */
  lemma OtherSectionAbsent(b: Base, k: string, v: Json, other: string)
    requires k !in BaseKeys && other !in BaseKeys && other != k
    ensures !HasKey(Set(BaseDict(b), k, v), other)
  {
    AddSection(b, k, v);
  }

  /** The pairs `SessionMetadata.to_dict` adds with `data.update`. */
  function ExtraDict(s: Session): Dict {
    [("herausgeber", OptStr(s.herausgeber)),
     ("issn", OptStr(s.issn)),
     ("sitzung_naechste_datum", OptStr(s.sitzungNaechsteDatum)),
     ("start_seitennr", OptStr(s.startSeitennr))]
  }

  /** `SessionMetadata.to_dict`. */
  function SessionDict(s: Session): Dict {
    Update(BaseDict(s.base), ExtraDict(s))
  }

  /** Each output key beside the root attribute it is read from, in output order. */
  const Fields: seq<(string, string)> := [
    ("wahlperiode", "wahlperiode"),
    ("sitzung_nr", "sitzung-nr"),
    ("sitzung_datum", "sitzung-datum"),
    ("sitzung_ort", "sitzung-ort"),
    ("sitzung_start", "sitzung-start-uhrzeit"),
    ("sitzung_ende", "sitzung-ende-uhrzeit"),
    ("herausgeber", "herausgeber"),
    ("issn", "issn"),
    ("sitzung_naechste_datum", "sitzung-naechste-datum"),
    ("start_seitennr", "start-seitennr")]

  /** The number of those keys every resource carries. */
  const BaseCount: nat := 6

  /** The metadata as a table: key `Fields[i].0` holds attribute `Fields[i].1`
      of the root, or `null` when the root lacks it. */
  function Table(root: Element, n: nat): Dict
    requires n <= |Fields|
  {
    seq(n, i requires 0 <= i < n => (Fields[i].0, OptStr(Attr(root, Fields[i].1))))
  }

  /** No key occurs twice in the table. */
  lemma FieldKeysDistinct()
    ensures forall i, j :: 0 <= i < j < |Fields| ==> Fields[i].0 != Fields[j].0
  {
  }

  /** The base dictionary is the first six rows of the table. */
  lemma BaseDictIsTable(root: Element)
    ensures BaseDict(ParseBase(root)) == Table(root, BaseCount)
    ensures UniqueKeys(BaseDict(ParseBase(root)))
  {
    FieldKeysDistinct();
    UniqueByIndex(Table(root, BaseCount));
  }

  /** `SessionMetadata.to_dict` is the whole table: the six base keys first,
      unchanged by the update, then the four added ones; keys are distinct. */
  lemma SessionDictIsTable(root: Element)
    ensures SessionDict(ParseSession(root)) == BaseDict(ParseBase(root)) + ExtraDict(ParseSession(root))
    ensures SessionDict(ParseSession(root)) == Table(root, |Fields|)
    ensures UniqueKeys(SessionDict(ParseSession(root)))
  {
    ExtraKeysAreNew(root);
    UpdateFresh(BaseDict(ParseBase(root)), ExtraDict(ParseSession(root)));
    BaseAndExtraAreTable(root);
  }

  lemma BaseAndExtraAreTable(root: Element)
    ensures BaseDict(ParseBase(root)) + ExtraDict(ParseSession(root)) == Table(root, |Fields|)
    ensures UniqueKeys(Table(root, |Fields|))
  {
    var t := Table(root, |Fields|);
    assert UniqueKeys(t) by {
      FieldKeysDistinct();
      UniqueByIndex(t);
    }
    var bx := BaseDict(ParseBase(root)) + ExtraDict(ParseSession(root));
    assert |bx| == |t|;
    forall i | 0 <= i < |t| ensures bx[i] == t[i] {
    }
  }

  /** The keys `SessionMetadata.to_dict` adds are distinct and not among the base keys. */
  lemma ExtraKeysAreNew(root: Element)
    ensures UniqueKeys(ExtraDict(ParseSession(root)))
    ensures forall i :: 0 <= i < 4 ==> !HasKey(BaseDict(ParseBase(root)), ExtraDict(ParseSession(root))[i].0)
  {
    BaseAndExtraAreTable(root);
    UniqueSplit(BaseDict(ParseBase(root)), ExtraDict(ParseSession(root)));
  }

  /** Every metadata key carries its root attribute, and `null` (never `""`)
      when the attribute is absent. */
  lemma MetadataReadsRoot(root: Element, i: nat)
    requires i < |Fields|
    ensures Get(SessionDict(ParseSession(root)), Fields[i].0) == Some(OptStr(Attr(root, Fields[i].1)))
    ensures Attr(root, Fields[i].1).None? ==> Get(SessionDict(ParseSession(root)), Fields[i].0) == Some(Null)
  {
    SessionDictIsTable(root);
    GetAt(SessionDict(ParseSession(root)), i);
  }
}
