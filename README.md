# Bundestag plenary protocol resources — a Dafny model

This project models the document-extraction core of `server_resources.py`:
the resource classes that read a Bundestag plenary protocol (an XML
document) and turn it into dictionaries for a JSON API. These are:

- the session metadata (`BundestagResource`, `SessionMetadata`);
- the agenda items (`AgendaItem`);
- the speaker roster (`SpeakerList`);
- the speeches (`Speech`), optionally narrowed to one speech id;
- the attachments (`AttachmentList`);
- the table of contents (`TableOfContents`);
- the full protocol that merges all of them (`FullProtocol`);
- the resource factory (`ResourceType`, `create_resource`).

## How the model is laid out

- `xml.dfy`:
  - The parsed tree is an `Element(tag, attrib, text, children)` value.
  - ElementTree's path steps are written as functions:
    - `.//t` is `DescendantsTagged`, proper descendants in document (pre-)order;
    - `./t` is `Children`;
    - `[@a='v']` is `WithAttr`;
    - `find` is `First`.
  - Python's `str.strip()` is `Trim`, over the exact character set of `str.isspace`.
  - `str.startswith` and `"\n".join` are here too.
- `json.dfy`:
  - The values `to_dict` builds (`None`, strings, lists, dictionaries).
  - A Python dictionary is an ordered list of pairs, because insertion order is what the JSON output shows.
  - `d[k] = v` is `Set`: an existing key keeps its place, a new key is appended.
  - `d.update(e)` is `Update`.
  - `d.get(k, default)` is `GetOr`.
- `metadata.dfy`: the root attributes and the two metadata dictionaries.
- `speakers.dfy`, `speeches.dfy`, `agenda.dfy`, `toc.dfy` and `attachments.dfy`: one module per extractor.
  - Each `_extract_*` loop is a `method` with a loop. Its `ensures` equates the result with a specification function.
  - Lemmas prove what the source promises about that function.
  - Each `to_dict` is a function.
- `protocol.dfy`: `FullProtocol.to_dict`, as a straight-line function and as a method that runs the extractors.
- `resources.dfy`: the `ResourceType` enumeration, `create_resource`, and each resource's dictionary.

The resource objects are values. Their fields are set once, in the
constructor, and never updated. The extractors build their lists by
appending to local variables, so they are methods over sequences.

## Model

| member | source | states |
|---|---|---|
| Xml.Trim | server_resources.py:98 | `str.strip()`: the result is a slice of the input, has no whitespace at either end, and everything cut off on either side is whitespace |
| Xml.StrippedText | server_resources.py:331-332 | the field is `""` when the element is missing or has no text, and otherwise its stripped text; either way it is stripped |
| Xml.StartsWithAfterTrim | server_resources.py:288-300 | a string that starts with a prefix that has no outer whitespace still starts with it after stripping |
| Xml.CollectTrimmedTexts | server_resources.py:239-242 | the comment loop yields the stripped texts of exactly the elements that have text, in document order |
| Json.SetKeys | server_resources.py:119 | `data[k] = v` appends a new key at the end and leaves an existing key in its place |
| Json.SetGet | server_resources.py:119 | after `data[k] = v`, `k` maps to `v` and every other key maps to what it did before |
| Json.UpdateFresh | server_resources.py:66-73 | `data.update(e)` with keys that are all new appends `e`'s pairs in order |
| Json.UpdateGet | server_resources.py:390 | after `data.update(e)`, a key of `e` maps to its value in `e`, and any other key to its old value |
| Json.AbsentOfExtension | server_resources.py:403 | when the metadata is `data` followed by new keys, the comprehension `k not in data` keeps exactly those new pairs |
| Json.UniqueAppend | server_resources.py:397-425 | two dictionaries laid end to end, the second adding only new keys, have distinct keys |
| Metadata.BaseDictIsTable | server_resources.py:25-43 | the base dictionary holds the six root attributes in output order under their own keys, with distinct keys |
| Metadata.SessionDictIsTable | server_resources.py:53-74 | `SessionMetadata.to_dict` is the six base pairs, unchanged by the update, followed by the four added pairs, with distinct keys |
| Metadata.MetadataReadsRoot | server_resources.py:27-32 | every metadata key holds its root attribute, and `null` (not `""`) when the root lacks that attribute |
| Metadata.AddSection | server_resources.py:116-120 | assigning a section key to the base dictionary appends one pair after the six metadata pairs and reads back the value |
| Speakers.FieldText | server_resources.py:148-164 | a name field is `""` exactly when its element is missing or has no text, and otherwise that element's unstripped text |
| Speakers.SpeakerOf | server_resources.py:144-165 | a `redner` without a `./name` child yields no record; one with a `./name` child yields a record carrying its `id` |
| Speakers.AddSpeaker | server_resources.py:138-167 | the loop body appends the `redner`'s record unless its id is already taken or it has no `./name` |
| Speakers.ExtractSpeakers | server_resources.py:130-169 | the loop's result is `Roster` of the `.//redner` elements |
| Speakers.RosterDistinct | server_resources.py:140-142 | no two roster entries share an id, a missing id included |
| Speakers.RosterComplete | server_resources.py:137-167 | the id of every `redner` that has a name is in the roster; an unnamed `redner` with the same id earlier does not take its place |
| Speakers.RosterSound | server_resources.py:137-167 | every roster entry is the record of a named `redner` that no earlier named `redner` shares an id with |
| Speakers.RosterFirstWins | server_resources.py:137-167 | the record of the first named `redner` with a given id is in the roster |
| Speakers.RosterOrder | server_resources.py:137-167 | the roster keeps document order: of two entries, the earlier one is the record of the earlier first named `redner` |
| Speeches.SpeakerInfo | server_resources.py:201-230 | the speech's speaker is the record of the first `./p[@klasse='redner']/redner`, and empty when there is none or it has no name |
| Speeches.ContentParagraphs | server_resources.py:234-235 | a paragraph is content exactly when its `klasse` is not `redner` |
| Speeches.CollectContent | server_resources.py:233-236 | the text loop yields the stripped texts of the content paragraphs that have text, in order |
| Speeches.BuildSpeech | server_resources.py:195-251 | the loop body builds `SpeechOf` the `rede`: its id, speaker, newline-joined content and comments |
| Speeches.ExtractSpeeches | server_resources.py:185-257 | the loop's result, with its `continue` and `break`, is the records of the `rede` elements that `Picked` selects |
| Speeches.IndexOfId | server_resources.py:194-199 | the position of the first `rede` whose id is the requested one, or the end when none has it |
| Speeches.PickedAll | server_resources.py:197-199 | without a requested id (`None` or `""`), every `rede` is taken |
| Speeches.PickedById | server_resources.py:194-199 | with a requested id, only the first `rede` with that id is taken, or none at all |
| Speeches.AllSpeeches | server_resources.py:185-257 | without a requested id there is one record per `rede`, in document order |
| Speeches.SpeechById | server_resources.py:194-255 | with a requested id the result is the first matching `rede`'s record, or empty when no `rede` has the id |
| Speeches.SpeechByIdShape | server_resources.py:194-255 | with a requested id there is at most one record; it carries that id; it is missing exactly when no `rede` has the id |
| Speeches.OneSpeechDict | server_resources.py:262-263 | exactly one speech is stored under `rede`, and there is no `reden` key |
| Speeches.SpeechListDict | server_resources.py:264-265 | any other number of speeches, zero included, is stored under `reden`, and there is no `rede` key |
| Speeches.SpeechDictById | server_resources.py:185-266 | a requested id that matches gives `rede` holding that speech; one that matches nothing gives `reden: []`, not an error |
| Agenda.TitleIndex | server_resources.py:93 | the position of the first `p[@klasse='T_fett']` among the item's paragraphs, with no title paragraph before it, or none at all |
| Agenda.FindIsTitleIndex | server_resources.py:93-103 | `find(".//p[@klasse='T_fett']")` is the paragraph at `TitleIndex`, which is the element `p != titel_elem` compares against |
| Agenda.TitleOf | server_resources.py:96-98 | the stored title never has outer whitespace (its value is stated in `Agenda.ItemContents`) |
| Agenda.CollectDescription | server_resources.py:101-104 | the description loop yields `DescriptionTexts`: the stripped texts of the paragraphs that have text, except the title element |
| Agenda.BuildItem | server_resources.py:92-112 | the loop body builds `ItemOf` the `tagesordnungspunkt` |
| Agenda.ExtractAgendaItems | server_resources.py:84-114 | the loop's result is one record per `.//tagesordnungspunkt`, in order, with no deduplication |
| Agenda.DescriptionWithoutTitle | server_resources.py:101-104 | without a title paragraph, the description holds every paragraph text |
| Agenda.DescriptionSkipsTitle | server_resources.py:101-104 | with a title paragraph at position `k`, the description holds the texts of all paragraphs except the one at `k` |
| Agenda.TextsAccounted | server_resources.py:96-104 | every paragraph with text is used exactly once, as the title or as one line of the description |
| Agenda.ItemContents | server_resources.py:91-112 | an item carries its `top-id`, the stripped text of its first bold paragraph, and the other paragraph texts joined by newlines |
| Contents.PageReference | server_resources.py:370-385 | the page reference is stripped, and `""` when the entry has no `a` below it |
| Contents.ExtractPageReference | server_resources.py:370-385 | the method, with its `+=`, computes the stripped `seite` text followed by the stripped `seitenbereich` text of the first `a` |
| Contents.CollectEntries | server_resources.py:335-343 | the entry loop yields one record per entry whose content element exists and has text |
| Contents.BuildBlock | server_resources.py:348-364 | the block loop body builds `BlockOf` the block: its stripped title, or `""`, and its entries |
| Contents.CollectBlocks | server_resources.py:346-364 | the block loop yields one record per direct `ivz-block` child, in order, each with its own entries |
| Contents.ExtractToc | server_resources.py:321-368 | the method's result is `TocOf` the root |
| Contents.EntriesStripped | server_resources.py:335-364 | every entry text and page reference is stripped |
| Contents.EntryTexts | server_resources.py:335-343 | the entry texts are exactly the stripped texts of the content elements that have text; other entries are skipped |
| Contents.TocShape | server_resources.py:321-368 | without an `inhaltsverzeichnis`: empty title, no entries, no blocks; with one: one block per direct `ivz-block`; the title is stripped |
| Contents.TocKeysFresh | server_resources.py:387-391 | the table-of-contents keys are distinct, and none of them is a metadata key |
| Contents.TocDictAppends | server_resources.py:387-391 | `data.update(self.toc)` appends the table-of-contents pairs after the metadata, which it leaves unchanged |
| Contents.TocDictShape | server_resources.py:321-368 | the dictionary has a `bloecke` key exactly when the document has an `inhaltsverzeichnis` |
| Contents.TocDictGet | server_resources.py:323-366 | `titel` and `eintraege` read back what was extracted; `bloecke` reads back the blocks, or the default `[]` when it was never set |
| Contents.SectionOfToc | server_resources.py:406-411 | the full protocol's `inhaltsverzeichnis` section holds the title, the entries, and the blocks or `[]` |
| Attachments.AttachmentBlocks | server_resources.py:283-289 | a block is kept exactly when its title element has text that starts with `Anlage` before stripping |
| Attachments.CollectEntryTexts | server_resources.py:292-296 | the entry loop yields the stripped texts of the entry contents that have text, in order |
| Attachments.ExtractAttachments | server_resources.py:276-305 | the loop's result is one record per attachment block, in order |
| Attachments.AttachmentTitle | server_resources.py:288-300 | a stored attachment title is stripped and still starts with `Anlage` |
| Attachments.AttachmentTitles | server_resources.py:283-303 | every title in the attachment list is stripped and starts with `Anlage` |
| Attachments.AttachmentsExactly | server_resources.py:283-303 | every block whose title starts with `Anlage` yields a record, and no other block does |
| Attachments.AttachmentEntriesAreTocEntries | server_resources.py:292-296 | an attachment's entries are the entry texts the table of contents reads from the same block |
| Protocol.FullProtocolToDict | server_resources.py:397-425 | running the five extractors and the assignments into `data` in source order gives `FullDict` |
| Protocol.MergedIsSession | server_resources.py:399-403 | the metadata merge adds the four extra metadata pairs after the six base pairs and overwrites none of them |
| Protocol.SectionKeysFresh | server_resources.py:407-423 | the four section keys are distinct, and none of them is a metadata key |
| Protocol.SectionsRead | server_resources.py:406-423 | each section's `get` with its default reads back the list or table of contents its resource extracted |
| Protocol.FullDictLayout | server_resources.py:397-425 | the full protocol is the ten metadata pairs, each a root attribute or `null`, followed by the four sections in order |
| Protocol.FullMetadata | server_resources.py:397-403 | every metadata key of the full protocol holds its root attribute, or `null` |
| Protocol.FullSections | server_resources.py:405-423 | every section key of the full protocol holds what its extractor produced |
| Protocol.FullKeysUnique | server_resources.py:397-425 | no key occurs twice in the full protocol |
| Resources.ValueRoundTrip | server_resources.py:428-437 | every enumeration member is found again by its value, and each value names at most one member |
| Resources.ResourceOf | server_resources.py:440-457 | the dispatch is exhaustive: every kind of the enumeration yields a resource of that same kind |
| Resources.CreateResource | server_resources.py:440-457 | running the factory, with each kind's extractor method, returns `ResourceOf` the kind: the resource holding what that kind's constructor extracts |
| Resources.MetadataFirst | server_resources.py:34-43 | the dictionary of every resource other than the full protocol begins with the six base metadata pairs, each its root attribute or `null` |
| Resources.FullStarts | server_resources.py:397-425 | the full protocol's dictionary, the `to_dict` of the seventh kind, also begins with the six base metadata pairs |

## Behaviour of the code worth noting

- **Missing root attributes.** A metadata field whose root attribute is missing is `None`, written as `null`, not an empty string. The same holds for a missing `id` or `top-id` attribute (`Metadata.MetadataReadsRoot`).
- **No table of contents.** When the document has no `inhaltsverzeichnis`, the result has an empty title and no entries, and it has no `bloecke` key at all (`Contents.TocDictShape`). The full protocol puts `[]` in its place.
- **`rede` versus `reden`.** The speech dictionary uses the key `rede` whenever the extraction yields exactly one speech, even when no id was requested, for example in a document with a single speech. It uses `reden` in every other case, including a requested id that matches nothing (`Speeches.OneSpeechDict`, `Speeches.SpeechListDict`).
- **Empty requested id.** An empty requested id (`""`) does not filter, because Python treats it as false.
- **Speaker fields are not stripped.** The name fields of a speaker are stored as their raw element text. The speaker of a speech is the first `redner` child of any `p[@klasse='redner']`, not necessarily a child of the first such paragraph.
- **The `Anlage` test uses the raw title.** The attachment test runs on the title text before it is stripped. A title with leading whitespace is not an attachment.

## Left out

- `to_json` / `json.dumps` (lines 45-47): serialising to text is not modelled. The model stops at the dictionary value.
- `ET.fromstring` and the byte payload: parsing is not modelled. Every operation takes the already-parsed tree, so a malformed document is not modelled either.
- `ET.tostring(self.root)` followed by a re-parse in `FullProtocol.to_dict` is taken to give back the same tree. Each sub-resource is therefore built from the same `root`.
- The `ns` field (line 22) is never read by the core, so it is not modelled.
- Resources.CreateResource: the `ValueError` branch (line 459) is not reachable, because `ResourceType` is a closed datatype. The string lookup of the enumeration, which does raise for an unknown value, is `Resources.FromValue`, returning `None`.
- Resources.MetadataFirst: it covers six of the seven kinds. The full protocol's dictionary is `Protocol.FullDict` of the root, and `Resources.FullStarts` states the same property about it as a separate lemma, so the combined proof stays small.
- `kwargs` of `create_resource`: only `speech_id` is read, so the model takes it as one optional parameter.
- Python `Element` identity (`p != titel_elem`): modelled by the title paragraph's position among the item's paragraphs (`Agenda.FindIsTitleIndex`).
- `server.py` (HTTP access to the DIP API, the MCP tool and the command-line entry point) and `test_protocol.py` are not part of this model.
- `load_dotenv` and the environment: these touch no extractor and are left out.
