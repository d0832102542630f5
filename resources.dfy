/**
 * The resource kinds (`ResourceType`) and the factory `create_resource`,
 * with the dictionary each resource's `to_dict` produces.
 */
module Resources {
  import opened Optional
  import opened Xml
  import opened Json
  import Metadata
  import Agenda
  import Speakers
  import Speeches
  import Contents
  import Attachments
  import Protocol

  /** The members of the `ResourceType` enumeration. */
  datatype ResourceType =
    | MetadataType
    | AgendaItemType
    | SpeakerListType
    | SpeechType
    | AttachmentListType
    | TocType
    | FullProtocolType

  /** The member's string value. */
  function Value(t: ResourceType): string {
    match t
    case MetadataType => "metadata"
    case AgendaItemType => "agendaitem"
    case SpeakerListType => "speakerlist"
    case SpeechType => "speech"
    case AttachmentListType => "attachmentlist"
    case TocType => "toc"
    case FullProtocolType => "fullprotocol"
  }

  /** `ResourceType(value)`: the member with that value, and `None` where
      the enumeration raises `ValueError`. */
  function FromValue(s: string): Option<ResourceType> {
    if s == "metadata" then Some(MetadataType)
    else if s == "agendaitem" then Some(AgendaItemType)
    else if s == "speakerlist" then Some(SpeakerListType)
    else if s == "speech" then Some(SpeechType)
    else if s == "attachmentlist" then Some(AttachmentListType)
    else if s == "toc" then Some(TocType)
    else if s == "fullprotocol" then Some(FullProtocolType)
    else None
  }

  /** Every member is found again by its value, and a value names at most
      one member. */
  lemma ValueRoundTrip(t: ResourceType, s: string)
    ensures FromValue(Value(t)) == Some(t)
    ensures FromValue(s).Some? ==> Value(FromValue(s).value) == s
  {
  }

  /** A resource object: the metadata every resource parses from the root,
      and what its constructor extracts. The full protocol keeps the tree and
      extracts when its dictionary is built. */
  datatype Resource =
    | SessionMetadata(session: Metadata.Session)
    | AgendaItem(base: Metadata.Base, agendaItems: seq<Agenda.Item>)
    | SpeakerList(base: Metadata.Base, speakers: seq<Speakers.Speaker>)
    | Speech(base: Metadata.Base, speeches: seq<Speeches.Speech>)
    | AttachmentList(base: Metadata.Base, attachments: seq<Attachments.Attachment>)
    | TableOfContents(base: Metadata.Base, toc: Contents.Toc)
    | FullProtocol(base: Metadata.Base, root: Element)

  /** The kind of a resource object. */
  function TypeOf(r: Resource): ResourceType {
    match r
    case SessionMetadata(_) => MetadataType
    case AgendaItem(_, _) => AgendaItemType
    case SpeakerList(_, _) => SpeakerListType
    case Speech(_, _) => SpeechType
    case AttachmentList(_, _) => AttachmentListType
    case TableOfContents(_, _) => TocType
    case FullProtocol(_, _) => FullProtocolType
  }

  /** The object `create_resource` returns; `speechId` is `kwargs.get("speech_id")`. */
  function ResourceOf(t: ResourceType, root: Element, speechId: Option<string>): (r: Resource)
    ensures TypeOf(r) == t
  {
    var base := Metadata.ParseBase(root);
    match t
    case MetadataType => SessionMetadata(Metadata.ParseSession(root))
    case AgendaItemType => AgendaItem(base, Agenda.ItemList(DescendantsTagged(root, "tagesordnungspunkt")))
    case SpeakerListType => SpeakerList(base, Speakers.Roster(DescendantsTagged(root, "redner")))
    case SpeechType => Speech(base, Speeches.SpeechesOf(DescendantsTagged(root, "rede"), speechId))
    case AttachmentListType => AttachmentList(base, Attachments.AttachmentList(DescendantsTagged(root, "ivz-block")))
    case TocType => TableOfContents(base, Contents.TocOf(root))
    case FullProtocolType => FullProtocol(base, root)
  }

  /** `create_resource`, running the constructor's extractor. */
  method CreateResource(t: ResourceType, root: Element, speechId: Option<string>) returns (r: Resource)
    ensures r == ResourceOf(t, root, speechId)
  {
    var base := Metadata.ParseBase(root);
    match t
    case MetadataType =>
      r := SessionMetadata(Metadata.ParseSession(root));
    case AgendaItemType =>
      var items := Agenda.ExtractAgendaItems(root);
      r := AgendaItem(base, items);
    case SpeakerListType =>
      var speakers := Speakers.ExtractSpeakers(root);
      r := SpeakerList(base, speakers);
    case SpeechType =>
      var speeches := Speeches.ExtractSpeeches(root, speechId);
      r := Speech(base, speeches);
    case AttachmentListType =>
      var attachments := Attachments.ExtractAttachments(root);
      r := AttachmentList(base, attachments);
    case TocType =>
      var toc := Contents.ExtractToc(root);
      r := TableOfContents(base, toc);
    case FullProtocolType =>
      r := FullProtocol(base, root);
  }

  /** The resource's `to_dict`. */
  function ToDict(r: Resource): Dict {
    match r
    case SessionMetadata(session) => Metadata.SessionDict(session)
    case AgendaItem(base, items) => Agenda.ToDict(base, items)
    case SpeakerList(base, speakers) => Speakers.ToDict(base, speakers)
    case Speech(base, speeches) => Speeches.ToDict(base, speeches)
    case AttachmentList(base, attachments) => Attachments.ToDict(base, attachments)
    case TableOfContents(base, toc) => Contents.ToDict(base, toc)
    case FullProtocol(_, root) => Protocol.FullDict(root)
  }

  // ---------------------------------------------------------------------------
  // Properties of the dispatch

  /** Whatever its kind, a resource's dictionary begins with the six base
      metadata pairs, each the root attribute or `null`; its own keys follow.
      The full protocol's dictionary is the subject of `FullStarts`. */
  lemma MetadataFirst(t: ResourceType, root: Element, speechId: Option<string>)
    requires t != FullProtocolType
    ensures Metadata.StartsWithBase(ToDict(ResourceOf(t, root, speechId)), Metadata.ParseBase(root))
    ensures Metadata.BaseDict(Metadata.ParseBase(root)) == Metadata.Table(root, Metadata.BaseCount)
  {
    assert Metadata.BaseDict(Metadata.ParseBase(root)) == Metadata.Table(root, Metadata.BaseCount) by {
      Metadata.BaseDictIsTable(root);
    }
    match t
    case MetadataType => MetadataStarts(root, speechId);
    case AgendaItemType => AgendaStarts(root, speechId);
    case SpeakerListType => SpeakerListStarts(root, speechId);
    case SpeechType => SpeechResourceStarts(root, speechId);
    case AttachmentListType => AttachmentListStarts(root, speechId);
    case TocType => TocResourceStarts(root, speechId);
  }

  lemma AgendaStarts(root: Element, speechId: Option<string>)
    ensures Metadata.StartsWithBase(ToDict(ResourceOf(AgendaItemType, root, speechId)), Metadata.ParseBase(root))
  {
    var r := ResourceOf(AgendaItemType, root, speechId);
    SectionStarts(r.base, Protocol.SectionKeys[1], Agenda.ItemsJson(r.agendaItems));
  }

  lemma SpeakerListStarts(root: Element, speechId: Option<string>)
    ensures Metadata.StartsWithBase(ToDict(ResourceOf(SpeakerListType, root, speechId)), Metadata.ParseBase(root))
  {
    var r := ResourceOf(SpeakerListType, root, speechId);
    SectionStarts(r.base, Protocol.SectionKeys[2], Speakers.SpeakersJson(r.speakers));
  }

  lemma SpeechResourceStarts(root: Element, speechId: Option<string>)
    ensures Metadata.StartsWithBase(ToDict(ResourceOf(SpeechType, root, speechId)), Metadata.ParseBase(root))
  {
    var r := ResourceOf(SpeechType, root, speechId);
    SpeechStarts(r.base, r.speeches);
  }

  lemma AttachmentListStarts(root: Element, speechId: Option<string>)
    ensures Metadata.StartsWithBase(ToDict(ResourceOf(AttachmentListType, root, speechId)), Metadata.ParseBase(root))
  {
    var r := ResourceOf(AttachmentListType, root, speechId);
    SectionStarts(r.base, Protocol.SectionKeys[3], Attachments.AttachmentsJson(r.attachments));
  }

  lemma TocResourceStarts(root: Element, speechId: Option<string>)
    ensures Metadata.StartsWithBase(ToDict(ResourceOf(TocType, root, speechId)), Metadata.ParseBase(root))
  {
    var r := ResourceOf(TocType, root, speechId);
    TocStarts(r.base, r.toc);
  }

  lemma MetadataStarts(root: Element, speechId: Option<string>)
    ensures Metadata.StartsWithBase(ToDict(ResourceOf(MetadataType, root, speechId)), Metadata.ParseBase(root))
  {
    Metadata.SessionDictIsTable(root);
    Metadata.BaseThenMore(Metadata.ParseBase(root), Metadata.ExtraDict(Metadata.ParseSession(root)));
  }

  lemma SectionStarts(base: Metadata.Base, k: string, v: Json)
    requires k in Protocol.SectionKeys
    ensures Metadata.StartsWithBase(Set(Metadata.BaseDict(base), k, v), base)
  {
    Protocol.SectionKeysFresh();
    Metadata.AddSection(base, k, v);
    Metadata.BaseThenMore(base, [(k, v)]);
  }

  lemma SpeechStarts(base: Metadata.Base, speeches: seq<Speeches.Speech>)
    ensures Metadata.StartsWithBase(Speeches.ToDict(base, speeches), base)
  {
    if |speeches| == 1 {
      Metadata.AddSection(base, "rede", Speeches.SpeechJson(speeches[0]));
      Metadata.BaseThenMore(base, [("rede", Speeches.SpeechJson(speeches[0]))]);
    } else {
      Metadata.AddSection(base, "reden", Speeches.SpeechesJson(speeches));
      Metadata.BaseThenMore(base, [("reden", Speeches.SpeechesJson(speeches))]);
    }
  }

  lemma TocStarts(base: Metadata.Base, toc: Contents.Toc)
    ensures Metadata.StartsWithBase(Contents.ToDict(base, toc), base)
  {
    Contents.TocDictAppends(base, toc);
    Metadata.BaseThenMore(base, Contents.TocDict(toc));
  }

  lemma FullStarts(root: Element)
    ensures Metadata.StartsWithBase(Protocol.FullDict(root), Metadata.ParseBase(root))
  {
    var base := Metadata.ParseBase(root);
    var extra := Metadata.ExtraDict(Metadata.ParseSession(root));
    var table := Metadata.Table(root, |Metadata.Fields|);
    Protocol.FullDictLayout(root);
    Metadata.BaseAndExtraAreTable(root);
    Metadata.BaseThenMore(base, extra);
    Metadata.StartsWithBaseAppend(table, base, Protocol.SectionPairs(root));
  }
}
