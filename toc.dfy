/**
 * The table of contents (`TableOfContents`): the `inhaltsverzeichnis`
 * element's title, its direct entries with page references, and its blocks.
 */
module Contents {
  import opened Optional
  import opened Xml
  import opened Json
  import Metadata

  /** One entry: its text and its page reference. */
  datatype Entry = Entry(inhalt: string, seite: string)

  /** One `ivz-block`: its title and its entries. */
  datatype Block = Block(titel: string, eintraege: seq<Entry>)

  /** The dictionary `_extract_toc` builds. `bloecke` is `None` when the key
      is never set, which happens when there is no `inhaltsverzeichnis`. */
  datatype Toc = Toc(titel: string, eintraege: seq<Entry>, bloecke: Option<seq<Block>>)

  /** `_extract_page_reference`: from the first `a` below the entry, the
      stripped `seite` text followed by the stripped `seitenbereich` text. */
  function PageReference(eintrag: Element): (r: string)
    ensures IsTrimmed(r)
    ensures DescendantsTagged(eintrag, "a") == [] ==> r == ""
  {
    match First(DescendantsTagged(eintrag, "a"))
    case None => ""
    case Some(a) =>
      var seite := StrippedText(First(Children(a, "seite")));
      var bereich := StrippedText(First(Children(a, "seitenbereich")));
      ConcatTrimmed(seite, bereich);
      seite + bereich
  }

  /** The method form of `_extract_page_reference`, with its `+=`. */
  method ExtractPageReference(eintrag: Element) returns (pageRef: string)
    ensures pageRef == PageReference(eintrag)
  {
    pageRef := "";
    var aElem := First(DescendantsTagged(eintrag, "a"));
    if aElem.Some? {
      var seiteElem := First(Children(aElem.value, "seite"));
      var seitenbereichElem := First(Children(aElem.value, "seitenbereich"));
      if seiteElem.Some? && seiteElem.value.text.Some? && seiteElem.value.text.value != "" {
        pageRef := Trim(seiteElem.value.text.value);
      }
      if seitenbereichElem.Some? && seitenbereichElem.value.text.Some? && seitenbereichElem.value.text.value != "" {
        pageRef := pageRef + Trim(seitenbereichElem.value.text.value);
      }
    }
  }

  /** `eintrag.find("./ivz-eintrag-inhalt")`. */
  function InhaltOf(eintrag: Element): Option<Element> {
    First(Children(eintrag, "ivz-eintrag-inhalt"))
  }

  /** An entry element contributes when its content element exists and has text. */
  predicate HasContent(eintrag: Element) {
    InhaltOf(eintrag).Some? && HasText(InhaltOf(eintrag).value)
  }

  /** The entry record for an entry element with content. */
  function EntryOf(eintrag: Element): Entry
    requires HasContent(eintrag)
  {
    Entry(Trim(InhaltOf(eintrag).value.text.value), PageReference(eintrag))
  }

  /** The entry loop: one record per entry element with content, in order. */
  function Entries(eintraege: seq<Element>): seq<Entry> {
    if eintraege == [] then []
    else
      var last := eintraege[|eintraege| - 1];
      Entries(eintraege[..|eintraege| - 1]) + (if HasContent(last) then [EntryOf(last)] else [])
  }

  /** The loop over `findall("./ivz-eintrag")` shared by the top level and
      the blocks. */
  method CollectEntries(eintraege: seq<Element>) returns (entries: seq<Entry>)
    ensures entries == Entries(eintraege)
  {
    entries := [];
    for i := 0 to |eintraege|
      invariant entries == Entries(eintraege[..i])
    {
      assert eintraege[..i + 1][..i] == eintraege[..i];
      var eintrag := eintraege[i];
      var inhaltElem := InhaltOf(eintrag);
      if inhaltElem.Some? && inhaltElem.value.text.Some? && inhaltElem.value.text.value != "" {
        var seite := ExtractPageReference(eintrag);
        entries := entries + [Entry(Trim(inhaltElem.value.text.value), seite)];
      }
    }
    assert eintraege[..|eintraege|] == eintraege;
  }

  /** The record for one `ivz-block`. */
  function BlockOf(block: Element): Block {
    Block(StrippedText(First(Children(block, "ivz-block-titel"))), Entries(Children(block, "ivz-eintrag")))
  }

  /** The records of a list of `ivz-block` elements, one each, in order. */
  function BlockList(blocks: seq<Element>): (r: seq<Block>)
    ensures |r| == |blocks| && forall i :: 0 <= i < |blocks| ==> r[i] == BlockOf(blocks[i])
  {
    seq(|blocks|, i requires 0 <= i < |blocks| => BlockOf(blocks[i]))
  }

  /** What `_extract_toc` returns for a document with root `root`. */
  function TocOf(root: Element): Toc {
    match First(DescendantsTagged(root, "inhaltsverzeichnis"))
    case None => Toc("", [], None)
    case Some(ivz) =>
      Toc(StrippedText(First(Children(ivz, "ivz-titel"))), Entries(Children(ivz, "ivz-eintrag")),
          Some(BlockList(Children(ivz, "ivz-block"))))
  }

  /** The body of the block loop for one `ivz-block`. */
  method BuildBlock(block: Element) returns (blockData: Block)
    ensures blockData == BlockOf(block)
  {
    var titelElem := First(Children(block, "ivz-block-titel"));
    blockData := Block("", []);
    if titelElem.Some? && titelElem.value.text.Some? && titelElem.value.text.value != "" {
      blockData := blockData.(titel := Trim(titelElem.value.text.value));
    }
    var entries := CollectEntries(Children(block, "ivz-eintrag"));
    blockData := blockData.(eintraege := entries);
  }

  lemma BlockListSnoc(blocks: seq<Element>, block: Element)
    ensures BlockList(blocks + [block]) == BlockList(blocks) + [BlockOf(block)]
  {
  }

  /** The loop over `findall("./ivz-block")`. */
  method CollectBlocks(blockElems: seq<Element>) returns (blocks: seq<Block>)
    ensures blocks == BlockList(blockElems)
  {
    blocks := [];
    for i := 0 to |blockElems|
      invariant blocks == BlockList(blockElems[..i])
    {
      var blockData := BuildBlock(blockElems[i]);
      BlockListSnoc(blockElems[..i], blockElems[i]);
      blocks := blocks + [blockData];
      SplitAt(blockElems, i);
    }
    assert blockElems[..|blockElems|] == blockElems;
  }

  /** `TableOfContents._extract_toc`. */
  method ExtractToc(root: Element) returns (toc: Toc)
    ensures toc == TocOf(root)
  {
    toc := Toc("", [], None);
    var inhaltsverzeichnis := First(DescendantsTagged(root, "inhaltsverzeichnis"));
    if inhaltsverzeichnis.None? {
      return;
    }
    var ivz := inhaltsverzeichnis.value;
    var titelElem := First(Children(ivz, "ivz-titel"));
    if titelElem.Some? && titelElem.value.text.Some? && titelElem.value.text.value != "" {
      toc := toc.(titel := Trim(titelElem.value.text.value));
    }
    var entries := CollectEntries(Children(ivz, "ivz-eintrag"));
    toc := toc.(eintraege := entries);
    var blocks := CollectBlocks(Children(ivz, "ivz-block"));
    toc := toc.(bloecke := Some(blocks));
  }

  // ---------------------------------------------------------------------------
  // What the entries are

  /** Every entry text and page reference is stripped. */
  lemma {:induction false} EntriesStripped(eintraege: seq<Element>)
    ensures forall e :: e in Entries(eintraege) ==> IsTrimmed(e.inhalt) && IsTrimmed(e.seite)
  {
    if eintraege != [] {
      EntriesStripped(eintraege[..|eintraege| - 1]);
    }
  }

  /** The entry texts are exactly the stripped content texts: an entry whose
      content element is missing or empty is skipped. */
  lemma {:induction false} EntryTexts(eintraege: seq<Element>)
    ensures var es := Entries(eintraege);
            Inhalte(es) == TrimmedTexts(ContentElems(eintraege))
  {
    if eintraege != [] {
      var n := |eintraege| - 1;
      var pre := eintraege[..n];
      var last := eintraege[n];
      EntryTexts(pre);
      var more := if HasContent(last) then [EntryOf(last)] else [];
      assert Entries(eintraege) == Entries(pre) + more;
      InhalteAppend(Entries(pre), more);
      if InhaltOf(last).Some? {
        assert ContentElems(eintraege) == ContentElems(pre) + [InhaltOf(last).value];
        TrimmedTextsSnoc(ContentElems(pre), InhaltOf(last).value);
      } else {
        assert ContentElems(eintraege) == ContentElems(pre);
        assert more == [];
        assert Inhalte(Entries(pre) + more) == Inhalte(Entries(pre));
      }
    }
  }

  /** The texts of a list of entries. */
  function Inhalte(es: seq<Entry>): (r: seq<string>)
    ensures |r| == |es| && forall i :: 0 <= i < |es| ==> r[i] == es[i].inhalt
  {
    seq(|es|, i requires 0 <= i < |es| => es[i].inhalt)
  }

  lemma InhalteAppend(a: seq<Entry>, b: seq<Entry>)
    ensures Inhalte(a + b) == Inhalte(a) + Inhalte(b)
  {
  }

  /** The content elements of the entry elements that have one, in order. */
  function ContentElems(eintraege: seq<Element>): seq<Element> {
    if eintraege == [] then []
    else
      var last := eintraege[|eintraege| - 1];
      ContentElems(eintraege[..|eintraege| - 1]) + (if InhaltOf(last).Some? then [InhaltOf(last).value] else [])
  }

  lemma ContentElemsSnoc(eintraege: seq<Element>, eintrag: Element)
    ensures ContentElems(eintraege + [eintrag])
            == ContentElems(eintraege) + if InhaltOf(eintrag).Some? then [InhaltOf(eintrag).value] else []
  {
    assert (eintraege + [eintrag])[..|eintraege|] == eintraege;
  }

  /** Without an `inhaltsverzeichnis` the result is the empty title, no
      entries and no `bloecke` key; with one, there is one block per direct
      `ivz-block` child. */
  lemma TocShape(root: Element)
    ensures var ivz := First(DescendantsTagged(root, "inhaltsverzeichnis"));
            var toc := TocOf(root);
            && (ivz.None? ==> toc.titel == "" && toc.eintraege == [] && toc.bloecke.None?)
            && (ivz.Some? ==> toc.bloecke.Some? && |toc.bloecke.value| == |Children(ivz.value, "ivz-block")|)
            && IsTrimmed(toc.titel)
  {
  }

  // ---------------------------------------------------------------------------
  // Output

  function EntryJson(e: Entry): Json {
    Obj([("inhalt", Str(e.inhalt)), ("seite", Str(e.seite))])
  }

  function EntriesJson(es: seq<Entry>): Json {
    Arr(seq(|es|, i requires 0 <= i < |es| => EntryJson(es[i])))
  }

  function BlockJson(b: Block): Json {
    Obj([("titel", Str(b.titel)), ("eintraege", EntriesJson(b.eintraege))])
  }

  function BlocksJson(bs: seq<Block>): Json {
    Arr(seq(|bs|, i requires 0 <= i < |bs| => BlockJson(bs[i])))
  }

  /** The `toc` dictionary: `titel`, `eintraege`, and `bloecke` once set. */
  function TocDict(toc: Toc): Dict {
    [("titel", Str(toc.titel)), ("eintraege", EntriesJson(toc.eintraege))]
    + match toc.bloecke case None => [] case Some(bs) => [("bloecke", BlocksJson(bs))]
  }

  /** `TableOfContents.to_dict`. */
  function ToDict(base: Metadata.Base, toc: Toc): Dict {
    Update(Metadata.BaseDict(base), TocDict(toc))
  }

  /** The table-of-contents keys are distinct and none of them is a
      metadata key. */
  lemma TocKeysFresh(base: Metadata.Base, toc: Toc)
    ensures UniqueKeys(TocDict(toc))
    ensures forall i :: 0 <= i < |TocDict(toc)| ==> !HasKey(Metadata.BaseDict(base), TocDict(toc)[i].0)
  {
    var d := TocDict(toc);
    var ks := ["titel", "eintraege", "bloecke"];
    assert forall i :: 0 <= i < |d| ==> d[i].0 == ks[i];
    assert forall i :: 0 <= i < |ks| ==> ks[i] !in Metadata.BaseKeys;
    UniqueByIndex(d);
    forall i | 0 <= i < |d| ensures !HasKey(Metadata.BaseDict(base), d[i].0) {
      Metadata.BaseLacks(base, d[i].0);
    }
  }

  /** None of the table-of-contents keys is a metadata key. */
  lemma TocKeysNotBase()
    ensures "titel" !in Metadata.BaseKeys && "eintraege" !in Metadata.BaseKeys && "bloecke" !in Metadata.BaseKeys
  {
  }

  /** `data.update(self.toc)` appends the table-of-contents pairs after the
      metadata, which it leaves as it was. */
  lemma TocDictAppends(base: Metadata.Base, toc: Toc)
    ensures ToDict(base, toc) == Metadata.BaseDict(base) + TocDict(toc)
  {
    TocKeysFresh(base, toc);
    UpdateFresh(Metadata.BaseDict(base), TocDict(toc));
  }

  /** `bloecke` is in the dictionary exactly when the document has an
      `inhaltsverzeichnis`. */
  lemma TocDictShape(base: Metadata.Base, root: Element)
    ensures HasKey(ToDict(base, TocOf(root)), "bloecke")
            <==> First(DescendantsTagged(root, "inhaltsverzeichnis")).Some?
  {
    BlocksKeyIffSet(base, TocOf(root));
    TocShape(root);
  }

  /** `bloecke` is in the dictionary exactly when the blocks were set. */
  lemma BlocksKeyIffSet(base: Metadata.Base, toc: Toc)
    ensures HasKey(ToDict(base, toc), "bloecke") <==> toc.bloecke.Some?
  {
    var b := Metadata.BaseDict(base);
    var t := TocDict(toc);
    assert ToDict(base, toc) == b + t by {
      TocDictAppends(base, toc);
    }
    HasKeyAppend(b, t, "bloecke");
    TocKeysNotBase();
    Metadata.BaseLacks(base, "bloecke");
    if toc.bloecke.Some? {
      assert Keys(t)[2] == "bloecke";
    } else {
      assert Keys(t) == ["titel", "eintraege"];
    }
  }

  /** The three keys of the table-of-contents dictionary. */
  lemma TocDictGet(toc: Toc)
    ensures Get(TocDict(toc), "titel") == Some(Str(toc.titel))
    ensures Get(TocDict(toc), "eintraege") == Some(EntriesJson(toc.eintraege))
    ensures GetOr(TocDict(toc), "bloecke", Arr([])) == match toc.bloecke case None => Arr([]) case Some(bs) => BlocksJson(bs)
  {
    var t := TocDict(toc);
    assert Get(t, "bloecke") == Get(t[2..], "bloecke");
  }

  /** The section `FullProtocol.to_dict` builds from this dictionary. */
  function Section(d: Dict): Json {
    Obj([("titel", GetOr(d, "titel", Str(""))),
         ("eintraege", GetOr(d, "eintraege", Arr([]))),
         ("bloecke", GetOr(d, "bloecke", Arr([])))])
  }

  /** Read back through `get`, the dictionary gives the title, the entries,
      and the blocks or `[]` when the key was never set. */
  lemma SectionOfToc(base: Metadata.Base, toc: Toc)
    ensures Section(ToDict(base, toc))
            == Obj([("titel", Str(toc.titel)), ("eintraege", EntriesJson(toc.eintraege)),
                    ("bloecke", match toc.bloecke case None => Arr([]) case Some(bs) => BlocksJson(bs))])
  {
    var b := Metadata.BaseDict(base);
    var t := TocDict(toc);
    assert ToDict(base, toc) == b + t by {
      TocDictAppends(base, toc);
    }
    TocDictGet(toc);
    TocKeysNotBase();
    Metadata.BaseLacks(base, "titel");
    Metadata.BaseLacks(base, "eintraege");
    Metadata.BaseLacks(base, "bloecke");
    GetOrAppend(b, t, "titel", Str(""));
    GetOrAppend(b, t, "eintraege", Arr([]));
    GetOrAppend(b, t, "bloecke", Arr([]));
  }
}
