/**
 * The full protocol (`FullProtocol.to_dict`), which merges the metadata and
 * every extractor's result into one dictionary.
 */
module Protocol {
  import opened Optional
  import opened Xml
  import opened Json
  import Metadata
  import Agenda
  import Speakers
  import Speeches
  import Contents
  import Attachments

  // ---------------------------------------------------------------------------
  // The full protocol

  /** The keys `FullProtocol.to_dict` adds after the metadata, in order. */
  const SectionKeys: seq<string> := ["inhaltsverzeichnis", "tagesordnungspunkte", "redner", "anlagen"]

  /** No section key is a metadata key, and the section keys are distinct. */
  lemma SectionKeysFresh()
    ensures forall i, j :: 0 <= i < |Metadata.Fields| && 0 <= j < |SectionKeys| ==> Metadata.Fields[i].0 != SectionKeys[j]
    ensures forall j :: 0 <= j < |SectionKeys| ==> SectionKeys[j] !in Metadata.BaseKeys
    ensures forall i, j :: 0 <= i < j < |SectionKeys| ==> SectionKeys[i] != SectionKeys[j]
  {
  }

  /** `data` after `data.update({k: v for k, v in metadata.items() if k not in data})`. */
  function MergedMetadata(root: Element): Dict {
    var data := Metadata.BaseDict(Metadata.ParseBase(root));
    var metadata := Metadata.SessionDict(Metadata.ParseSession(root));
    Update(data, Absent(metadata, data))
  }

  /** `FullProtocol.to_dict`. Each resource it builds from `ET.tostring(self.root)`
      is given the same tree. */
  function FullDict(root: Element): Dict {
    var base := Metadata.ParseBase(root);
    var data1 := MergedMetadata(root);
    var toc := Contents.ToDict(base, Contents.TocOf(root));
    var data2 := Set(data1, "inhaltsverzeichnis", Contents.Section(toc));
    var agenda := Agenda.ToDict(base, Agenda.ItemList(DescendantsTagged(root, "tagesordnungspunkt")));
    var data3 := Set(data2, "tagesordnungspunkte", GetOr(agenda, "tagesordnungspunkte", Arr([])));
    var speakers := Speakers.ToDict(base, Speakers.Roster(DescendantsTagged(root, "redner")));
    var data4 := Set(data3, "redner", GetOr(speakers, "redner", Arr([])));
    var attachments := Attachments.ToDict(base, Attachments.AttachmentList(DescendantsTagged(root, "ivz-block")));
    Set(data4, "anlagen", GetOr(attachments, "anlagen", Arr([])))
  }

  /** `FullProtocol.to_dict` as it runs: each resource's extractor, then the
      assignments into `data` one by one. */
  method FullProtocolToDict(root: Element) returns (data: Dict)
    ensures data == FullDict(root)
  {
    var base := Metadata.ParseBase(root);
    data := Metadata.BaseDict(base);
    var metadata := Metadata.SessionDict(Metadata.ParseSession(root));
    data := Update(data, Absent(metadata, data));
    var toc := Contents.ExtractToc(root);
    data := Set(data, "inhaltsverzeichnis", Contents.Section(Contents.ToDict(base, toc)));
    var agendaItems := Agenda.ExtractAgendaItems(root);
    data := Set(data, "tagesordnungspunkte", GetOr(Agenda.ToDict(base, agendaItems), "tagesordnungspunkte", Arr([])));
    var speakers := Speakers.ExtractSpeakers(root);
    data := Set(data, "redner", GetOr(Speakers.ToDict(base, speakers), "redner", Arr([])));
    var attachments := Attachments.ExtractAttachments(root);
    data := Set(data, "anlagen", GetOr(Attachments.ToDict(base, attachments), "anlagen", Arr([])));
  }

  /** The merge adds exactly the four extra metadata pairs after the six base
      ones: no base value is overwritten. */
  lemma MergedIsSession(root: Element)
    ensures MergedMetadata(root) == Metadata.SessionDict(Metadata.ParseSession(root))
    ensures MergedMetadata(root) == Metadata.Table(root, |Metadata.Fields|)
  {
    var data := Metadata.BaseDict(Metadata.ParseBase(root));
    var extra := Metadata.ExtraDict(Metadata.ParseSession(root));
    Metadata.SessionDictIsTable(root);
    Metadata.ExtraKeysAreNew(root);
    AbsentOfExtension(data, extra);
    UpdateFresh(data, extra);
  }

  /** A key that is no metadata key is not in the metadata table. */
  lemma NotInTable(root: Element, k: string)
    requires forall i :: 0 <= i < |Metadata.Fields| ==> Metadata.Fields[i].0 != k
    ensures !HasKey(Metadata.Table(root, |Metadata.Fields|), k)
  {
  }

  /** The value each section of the full protocol takes. */
  function TocJson(toc: Contents.Toc): Json {
    Obj([("titel", Str(toc.titel)), ("eintraege", Contents.EntriesJson(toc.eintraege)),
         ("bloecke", match toc.bloecke case None => Arr([]) case Some(bs) => Contents.BlocksJson(bs))])
  }

  function SectionValues(root: Element): seq<Json> {
    [TocJson(Contents.TocOf(root)),
     Agenda.ItemsJson(Agenda.ItemList(DescendantsTagged(root, "tagesordnungspunkt"))),
     Speakers.SpeakersJson(Speakers.Roster(DescendantsTagged(root, "redner"))),
     Attachments.AttachmentsJson(Attachments.AttachmentList(DescendantsTagged(root, "ivz-block")))]
  }

  /** The section keys beside their values. */
  function Pairs(v: seq<Json>): (r: Dict)
    requires |v| == |SectionKeys|
    ensures |r| == |SectionKeys|
    ensures forall i :: 0 <= i < |r| ==> r[i] == (SectionKeys[i], v[i])
  {
    [(SectionKeys[0], v[0]), (SectionKeys[1], v[1]), (SectionKeys[2], v[2]), (SectionKeys[3], v[3])]
  }

  /** The four sections as they are appended. */
  function SectionPairs(root: Element): Dict {
    Pairs(SectionValues(root))
  }

  /** Each section reads back, through `get` with its default, the list the
      corresponding resource holds. */
  lemma SectionsRead(root: Element)
    ensures var base := Metadata.ParseBase(root);
            var v := SectionValues(root);
            && Contents.Section(Contents.ToDict(base, Contents.TocOf(root))) == v[0]
            && GetOr(Agenda.ToDict(base, Agenda.ItemList(DescendantsTagged(root, "tagesordnungspunkt"))),
                     "tagesordnungspunkte", Arr([])) == v[1]
            && GetOr(Speakers.ToDict(base, Speakers.Roster(DescendantsTagged(root, "redner"))),
                     "redner", Arr([])) == v[2]
            && GetOr(Attachments.ToDict(base, Attachments.AttachmentList(DescendantsTagged(root, "ivz-block"))),
                     "anlagen", Arr([])) == v[3]
  {
    var base := Metadata.ParseBase(root);
    var v := SectionValues(root);
    SectionKeysFresh();
    Contents.SectionOfToc(base, Contents.TocOf(root));
    Metadata.AddSection(base, SectionKeys[1], v[1]);
    Metadata.AddSection(base, SectionKeys[2], v[2]);
    Metadata.AddSection(base, SectionKeys[3], v[3]);
  }

  /** Four assignments in a row are an update with the four pairs. */
  lemma SetsAreUpdate(d: Dict, p: Dict)
    requires |p| == 4
    ensures Set(Set(Set(Set(d, p[0].0, p[0].1), p[1].0, p[1].1), p[2].0, p[2].1), p[3].0, p[3].1) == Update(d, p)
  {
    var d1 := Set(d, p[0].0, p[0].1);
    var d2 := Set(d1, p[1].0, p[1].1);
    var d3 := Set(d2, p[2].0, p[2].1);
    assert p[1..][0] == p[1] && p[1..][1..] == p[2..];
    assert p[2..][0] == p[2] && p[2..][1..] == p[3..];
    assert p[3..][0] == p[3] && p[3..][1..] == [];
    calc {
      Update(d, p);
      Update(d1, p[1..]);
      Update(d2, p[2..]);
      Update(d3, p[3..]);
      Update(Set(d3, p[3].0, p[3].1), []);
    }
  }

  /** `FullProtocol.to_dict` assigns the four section pairs, in order, to the
      merged metadata. */
  lemma FullDictSets(root: Element)
    ensures var p := SectionPairs(root);
            FullDict(root)
            == Set(Set(Set(Set(Metadata.Table(root, |Metadata.Fields|), p[0].0, p[0].1), p[1].0, p[1].1), p[2].0, p[2].1), p[3].0, p[3].1)
  {
    MergedIsSession(root);
    SectionsRead(root);
  }

  /** Four assignments of new, distinct keys append the four pairs. */
  lemma FreshSetsAppend(d: Dict, p: Dict)
    requires |p| == 4 && UniqueKeys(p)
    requires forall i :: 0 <= i < |p| ==> !HasKey(d, p[i].0)
    ensures Set(Set(Set(Set(d, p[0].0, p[0].1), p[1].0, p[1].1), p[2].0, p[2].1), p[3].0, p[3].1) == d + p
  {
    SetsAreUpdate(d, p);
    UpdateFresh(d, p);
  }

  /** The section keys are distinct and none of them is in the metadata. */
  lemma SectionPairsFresh(root: Element)
    ensures UniqueKeys(SectionPairs(root))
    ensures forall i :: 0 <= i < |SectionPairs(root)| ==> !HasKey(Metadata.Table(root, |Metadata.Fields|), SectionPairs(root)[i].0)
  {
    var p := SectionPairs(root);
    SectionKeysFresh();
    UniqueByIndex(p);
    forall i | 0 <= i < |p| ensures !HasKey(Metadata.Table(root, |Metadata.Fields|), p[i].0) {
      NotInTable(root, SectionKeys[i]);
    }
  }

  /** The full protocol is the ten metadata pairs, each the root attribute or
      `null`, followed by the four sections in order. */
  lemma FullDictLayout(root: Element)
    ensures FullDict(root) == Metadata.Table(root, |Metadata.Fields|) + SectionPairs(root)
  {
    FullDictSets(root);
    SectionPairsFresh(root);
    FreshSetsAppend(Metadata.Table(root, |Metadata.Fields|), SectionPairs(root));
  }

  /** Every metadata key of the full protocol holds its root attribute, or
      `null` when the root lacks it. */
  lemma FullMetadata(root: Element, i: nat)
    requires i < |Metadata.Fields|
    ensures Get(FullDict(root), Metadata.Fields[i].0) == Some(OptStr(Attr(root, Metadata.Fields[i].1)))
  {
    var d0 := Metadata.Table(root, |Metadata.Fields|);
    FullDictLayout(root);
    Metadata.BaseAndExtraAreTable(root);
    GetAppend(d0, SectionPairs(root), Metadata.Fields[i].0);
    GetAt(d0, i);
  }

  /** Every section of the full protocol holds what its resource extracts. */
  lemma FullSections(root: Element, j: nat)
    requires j < |SectionKeys|
    ensures Get(FullDict(root), SectionKeys[j]) == Some(SectionValues(root)[j])
  {
    var d0 := Metadata.Table(root, |Metadata.Fields|);
    var p := SectionPairs(root);
    FullDictLayout(root);
    SectionPairsFresh(root);
    GetAppend(d0, p, p[j].0);
    GetAt(p, j);
  }

  /** No key of the full protocol occurs twice. */
  lemma FullKeysUnique(root: Element)
    ensures UniqueKeys(FullDict(root))
  {
    var d0 := Metadata.Table(root, |Metadata.Fields|);
    var p := SectionPairs(root);
    FullDictLayout(root);
    Metadata.BaseAndExtraAreTable(root);
    SectionPairsFresh(root);
    UniqueAppend(d0, p);
  }
}
