/**
 * Attachments (`AttachmentList`): the index blocks whose title starts with
 * "Anlage", each with the texts of its entries.
 */
module Attachments {
  import opened Optional
  import opened Xml
  import opened Json
  import Metadata
  import opened Contents

  /** An attachment record. */
  datatype Attachment = Attachment(titel: string, eintraege: seq<string>)

  /** `block.find("./ivz-block-titel")`. */
  function TitleElem(block: Element): Option<Element> {
    First(Children(block, "ivz-block-titel"))
  }

  /** A block is an attachment when its title element has text that, before
      stripping, starts with "Anlage". */
  predicate IsAttachmentBlock(block: Element) {
    TitleElem(block).Some? && TitleElem(block).value.text.Some?
    && StartsWith(TitleElem(block).value.text.value, "Anlage")
  }

  /** The stripped texts of the block's entries that have content, in order. */
  function AttachmentEntryTexts(block: Element): seq<string> {
    TrimmedTexts(ContentElems(Children(block, "ivz-eintrag")))
  }

  /** The record for an attachment block. */
  function AttachmentOf(block: Element): Attachment
    requires IsAttachmentBlock(block)
  {
    Attachment(Trim(TitleElem(block).value.text.value), AttachmentEntryTexts(block))
  }

  /** The attachment blocks among `blocks`, in order. */
  function AttachmentBlocks(blocks: seq<Element>): (r: seq<Element>)
    ensures forall x :: x in r <==> x in blocks && IsAttachmentBlock(x)
  {
    if blocks == [] then []
    else
      var last := blocks[|blocks| - 1];
      AttachmentBlocks(blocks[..|blocks| - 1]) + (if IsAttachmentBlock(last) then [last] else [])
  }

  /** The records of a list of attachment blocks, one each, in order. */
  function Records(blocks: seq<Element>): (r: seq<Attachment>)
    requires forall b :: b in blocks ==> IsAttachmentBlock(b)
    ensures |r| == |blocks| && forall i :: 0 <= i < |blocks| ==> r[i] == AttachmentOf(blocks[i])
  {
    seq(|blocks|, i requires 0 <= i < |blocks| => AttachmentOf(blocks[i]))
  }

  /** The block loop: one record per attachment block, in order. */
  function AttachmentList(blocks: seq<Element>): seq<Attachment> {
    Records(AttachmentBlocks(blocks))
  }

  /** The entry loop of one block. */
  method CollectEntryTexts(eintraege: seq<Element>) returns (texts: seq<string>)
    ensures texts == TrimmedTexts(ContentElems(eintraege))
  {
    texts := [];
    for i := 0 to |eintraege|
      invariant texts == TrimmedTexts(ContentElems(eintraege[..i]))
    {
      var eintrag := eintraege[i];
      SplitAt(eintraege, i);
      ContentElemsSnoc(eintraege[..i], eintrag);
      ghost var prev := ContentElems(eintraege[..i]);
      var inhaltElem := InhaltOf(eintrag);
      if inhaltElem.Some? {
        TrimmedTextsSnoc(prev, inhaltElem.value);
      } else {
        assert ContentElems(eintraege[..i + 1]) == prev;
      }
      if inhaltElem.Some? && inhaltElem.value.text.Some? && inhaltElem.value.text.value != "" {
        texts := texts + [Trim(inhaltElem.value.text.value)];
      }
    }
    assert eintraege[..|eintraege|] == eintraege;
  }

  lemma AttachmentListSnoc(blocks: seq<Element>, block: Element)
    ensures AttachmentList(blocks + [block])
            == AttachmentList(blocks) + if IsAttachmentBlock(block) then [AttachmentOf(block)] else []
  {
    assert (blocks + [block])[..|blocks|] == blocks;
    assert AttachmentBlocks(blocks + [block])
           == AttachmentBlocks(blocks) + if IsAttachmentBlock(block) then [block] else [];
  }

  /** `AttachmentList._extract_attachments`. */
  method ExtractAttachments(root: Element) returns (attachments: seq<Attachment>)
    ensures attachments == AttachmentList(DescendantsTagged(root, "ivz-block"))
  {
    var anlagenBlocks := DescendantsTagged(root, "ivz-block");
    attachments := [];
    for i := 0 to |anlagenBlocks|
      invariant attachments == AttachmentList(anlagenBlocks[..i])
    {
      var block := anlagenBlocks[i];
      SplitAt(anlagenBlocks, i);
      AttachmentListSnoc(anlagenBlocks[..i], block);
      var titelElem := First(Children(block, "ivz-block-titel"));
      if titelElem.None? || titelElem.value.text.None? {
        continue;
      }
      if !StartsWith(titelElem.value.text.value, "Anlage") {
        continue;
      }
      var eintraege := CollectEntryTexts(Children(block, "ivz-eintrag"));
      attachments := attachments + [Attachment(Trim(titelElem.value.text.value), eintraege)];
    }
    assert anlagenBlocks[..|anlagenBlocks|] == anlagenBlocks;
  }

  // ---------------------------------------------------------------------------
  // What the attachment list is

  /** The stored title of an attachment block is stripped and still starts
      with "Anlage". */
  lemma AttachmentTitle(block: Element)
    requires IsAttachmentBlock(block)
    ensures StartsWith(AttachmentOf(block).titel, "Anlage") && IsTrimmed(AttachmentOf(block).titel)
  {
    StartsWithAfterTrim(TitleElem(block).value.text.value, "Anlage");
  }

  /** So every title in the list does. */
  lemma AttachmentTitles(blocks: seq<Element>)
    ensures forall i :: 0 <= i < |AttachmentList(blocks)| ==>
              StartsWith(AttachmentList(blocks)[i].titel, "Anlage") && IsTrimmed(AttachmentList(blocks)[i].titel)
  {
    var bs := AttachmentBlocks(blocks);
    forall i | 0 <= i < |bs|
      ensures StartsWith(AttachmentList(blocks)[i].titel, "Anlage") && IsTrimmed(AttachmentList(blocks)[i].titel)
    {
      AttachmentTitle(bs[i]);
    }
  }

  /** The records are those of the attachment blocks: every block whose
      title starts with "Anlage" yields one, and no other block does. */
  lemma AttachmentsExactly(blocks: seq<Element>, b: Element)
    requires b in blocks
    ensures IsAttachmentBlock(b) <==> b in AttachmentBlocks(blocks)
    ensures IsAttachmentBlock(b) ==> AttachmentOf(b) in AttachmentList(blocks)
  {
    if IsAttachmentBlock(b) {
      var bs := AttachmentBlocks(blocks);
      var i :| 0 <= i < |bs| && bs[i] == b;
      assert AttachmentList(blocks)[i] == AttachmentOf(b);
    }
  }

  /** An attachment's entries are the texts of the entries the table of
      contents reads from the same block. */
  lemma AttachmentEntriesAreTocEntries(block: Element)
    ensures AttachmentEntryTexts(block) == Inhalte(BlockOf(block).eintraege)
  {
    Contents.EntryTexts(Children(block, "ivz-eintrag"));
  }

  // ---------------------------------------------------------------------------
  // Output

  function AttachmentJson(a: Attachment): Json {
    Obj([("titel", Str(a.titel)),
         ("eintraege", Arr(seq(|a.eintraege|, i requires 0 <= i < |a.eintraege| => Str(a.eintraege[i]))))])
  }

  function AttachmentsJson(attachments: seq<Attachment>): Json {
    Arr(seq(|attachments|, i requires 0 <= i < |attachments| => AttachmentJson(attachments[i])))
  }

  /** `AttachmentList.to_dict`. */
  function ToDict(base: Metadata.Base, attachments: seq<Attachment>): Dict {
    Set(Metadata.BaseDict(base), "anlagen", AttachmentsJson(attachments))
  }
}
