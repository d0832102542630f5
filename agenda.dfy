/**
 * Agenda items (`AgendaItem`): one record per `tagesordnungspunkt` element,
 * with its bold title paragraph and the text of its other paragraphs.
 */
module Agenda {
  import opened Optional
  import opened Xml
  import opened Json
  import Metadata

  /** An agenda item record. */
  datatype Item = Item(id: Option<string>, titel: string, beschreibung: string)

  /** The `[@klasse='T_fett']` test that picks the title paragraph. */
  predicate IsTitle(p: Element) {
    Attr(p, "klasse") == Some("T_fett")
  }

  /** The position of the first title paragraph among `ps`, if any. */
  function TitleIndex(ps: seq<Element>): (r: Option<nat>)
    ensures r.Some? ==> r.value < |ps| && IsTitle(ps[r.value])
                        && forall j :: 0 <= j < r.value ==> !IsTitle(ps[j])
    ensures r.None? ==> forall j :: 0 <= j < |ps| ==> !IsTitle(ps[j])
  {
    if ps == [] then None
    else if IsTitle(ps[0]) then Some(0)
    else match TitleIndex(ps[1..])
         case None => None
         case Some(k) => Some(k + 1)
  }

  /** `top.find(".//p[@klasse='T_fett']")` is the paragraph at `TitleIndex`:
      the title element is identified by its position in `top.findall(".//p")`. */
  lemma {:induction false} FindIsTitleIndex(ps: seq<Element>)
    ensures First(WithAttr(ps, "klasse", "T_fett"))
            == match TitleIndex(ps) case None => None case Some(k) => Some(ps[k])
  {
    if ps != [] {
      FindIsTitleIndex(ps[1..]);
    }
  }

  /** The stripped text of the title paragraph, or `""` when there is none
      or it has no text. */
  function TitleOf(ps: seq<Element>): (r: string)
    ensures IsTrimmed(r)
  {
    match TitleIndex(ps)
    case None => ""
    case Some(k) => if HasText(ps[k]) then Trim(ps[k].text.value) else ""
  }

  /** The description loop: the stripped texts of the paragraphs with text,
      except the one at position `title` (`p != titel_elem`). */
  function DescriptionTexts(ps: seq<Element>, title: Option<nat>): seq<string> {
    if ps == [] then []
    else
      var n := |ps| - 1;
      DescriptionTexts(ps[..n], title)
      + (if HasText(ps[n]) && title != Some(n) then [Trim(ps[n].text.value)] else [])
  }

  /** The record `_extract_agenda_items` builds for one `tagesordnungspunkt`. */
  function ItemOf(top: Element): Item {
    var ps := DescendantsTagged(top, "p");
    Item(Attr(top, "top-id"), TitleOf(ps), Join("\n", DescriptionTexts(ps, TitleIndex(ps))))
  }

  /** The records of a list of `tagesordnungspunkt` elements, one each, in order. */
  function ItemList(tops: seq<Element>): (r: seq<Item>)
    ensures |r| == |tops| && forall i :: 0 <= i < |tops| ==> r[i] == ItemOf(tops[i])
  {
    seq(|tops|, i requires 0 <= i < |tops| => ItemOf(tops[i]))
  }

  /** The inner loop over `top.findall(".//p")`. */
  method CollectDescription(ps: seq<Element>, title: Option<nat>) returns (description: seq<string>)
    ensures description == DescriptionTexts(ps, title)
  {
    description := [];
    for i := 0 to |ps|
      invariant description == DescriptionTexts(ps[..i], title)
    {
      assert ps[..i + 1][..i] == ps[..i];
      var p := ps[i];
      if p.text.Some? && p.text.value != "" && title != Some(i) {
        description := description + [Trim(p.text.value)];
      }
    }
    assert ps[..|ps|] == ps;
  }

  /** The record the loop body of `_extract_agenda_items` builds for one
      `tagesordnungspunkt`. */
  method BuildItem(top: Element) returns (item: Item)
    ensures item == ItemOf(top)
  {
    var topId := Attr(top, "top-id");
    var ps := DescendantsTagged(top, "p");
    var titelIndex := TitleIndex(ps);
    var titel := "";
    if titelIndex.Some? && ps[titelIndex.value].text.Some? && ps[titelIndex.value].text.value != "" {
      titel := Trim(ps[titelIndex.value].text.value);
    }
    var description := CollectDescription(ps, titelIndex);
    var beschreibung := if description != [] then Join("\n", description) else "";
    item := Item(topId, titel, beschreibung);
  }

  lemma ItemListSnoc(tops: seq<Element>, top: Element)
    ensures ItemList(tops + [top]) == ItemList(tops) + [ItemOf(top)]
  {
  }

  /** `AgendaItem._extract_agenda_items`. */
  method ExtractAgendaItems(root: Element) returns (items: seq<Item>)
    ensures items == ItemList(DescendantsTagged(root, "tagesordnungspunkt"))
  {
    var tagesordnungspunkte := DescendantsTagged(root, "tagesordnungspunkt");
    items := [];
    for i := 0 to |tagesordnungspunkte|
      invariant items == ItemList(tagesordnungspunkte[..i])
    {
      var top := tagesordnungspunkte[i];
      var item := BuildItem(top);
      ItemListSnoc(tagesordnungspunkte[..i], top);
      items := items + [item];
      SplitAt(tagesordnungspunkte, i);
    }
    assert tagesordnungspunkte[..|tagesordnungspunkte|] == tagesordnungspunkte;
  }

  // ---------------------------------------------------------------------------
  // What the description is

  /** With no title paragraph inside `ps`, every paragraph with text is
      described. */
  lemma {:induction false} DescriptionWithoutTitle(ps: seq<Element>, title: Option<nat>)
    requires title.None? || title.value >= |ps|
    ensures DescriptionTexts(ps, title) == TrimmedTexts(ps)
  {
    if ps != [] {
      DescriptionWithoutTitle(ps[..|ps| - 1], title);
    }
  }

  /** The description is the text of every paragraph except the title
      paragraph, in document order. */
  lemma {:induction false} DescriptionSkipsTitle(ps: seq<Element>, k: nat)
    requires k < |ps|
    ensures DescriptionTexts(ps, Some(k)) == TrimmedTexts(ps[..k] + ps[k + 1..])
  {
    var n := |ps| - 1;
    var pre := ps[..n];
    var last := if HasText(ps[n]) && k != n then [Trim(ps[n].text.value)] else [];
    assert DescriptionTexts(ps, Some(k)) == DescriptionTexts(pre, Some(k)) + last;
    RemoveLast(ps, k);
    if n == k {
      DescriptionWithoutTitle(pre, Some(k));
    } else {
      var rest := ps[..k] + ps[k + 1..n];
      DescriptionSkipsTitle(pre, k);
      TrimmedTextsSnoc(rest, ps[n]);
    }
  }

  /** Removing position `k` of `s` relates to removing it from `s` without
      its last element. */
  lemma RemoveLast<T>(s: seq<T>, k: nat)
    requires k < |s|
    ensures var n := |s| - 1;
            && (k == n ==> s[..k] + s[k + 1..] == s[..n])
            && (k < n ==> s[..n][..k] + s[..n][k + 1..] == s[..k] + s[k + 1..n]
                          && s[..k] + s[k + 1..n] + [s[n]] == s[..k] + s[k + 1..])
  {
    var n := |s| - 1;
    if k < n {
      assert s[..n][..k] == s[..k] && s[..n][k + 1..] == s[k + 1..n];
      assert s[k + 1..n] + [s[n]] == s[k + 1..];
    }
  }

  /** Every paragraph with text is used exactly once: as the title or as a
      line of the description. */
  lemma {:induction false} TextsAccounted(ps: seq<Element>, title: Option<nat>)
    ensures |DescriptionTexts(ps, title)|
            + (if title.Some? && title.value < |ps| && HasText(ps[title.value]) then 1 else 0)
            == |TrimmedTexts(ps)|
  {
    if ps != [] {
      var n := |ps| - 1;
      var pre := ps[..n];
      TextsAccounted(pre, title);
      var text := if HasText(ps[n]) then [Trim(ps[n].text.value)] else [];
      assert TrimmedTexts(ps) == TrimmedTexts(pre) + text;
      var described := if HasText(ps[n]) && title != Some(n) then [Trim(ps[n].text.value)] else [];
      assert DescriptionTexts(ps, title) == DescriptionTexts(pre, title) + described;
      if title.Some? && title.value < n {
        assert pre[title.value] == ps[title.value];
      }
    }
  }

  /** An item's title is the stripped text of its first bold paragraph, and
      its description the other paragraph texts joined by newlines. */
  lemma ItemContents(top: Element)
    ensures var ps := DescendantsTagged(top, "p");
            var it := ItemOf(top);
            && it.id == Attr(top, "top-id")
            && IsTrimmed(it.titel)
            && (TitleIndex(ps).None? ==> it.titel == "" && it.beschreibung == Join("\n", TrimmedTexts(ps)))
            && (TitleIndex(ps).Some? ==>
                  var k := TitleIndex(ps).value;
                  it.titel == (if HasText(ps[k]) then Trim(ps[k].text.value) else "")
                  && it.beschreibung == Join("\n", TrimmedTexts(ps[..k] + ps[k + 1..])))
  {
    var ps := DescendantsTagged(top, "p");
    var t := TitleIndex(ps);
    var it := ItemOf(top);
    assert it.titel == TitleOf(ps) && it.beschreibung == Join("\n", DescriptionTexts(ps, t));
    if t.None? {
      UntitledParagraphs(ps);
    } else {
      TitledParagraphs(ps, t.value);
    }
  }

  /** Without a title paragraph the title is empty and every paragraph text
      is described. */
  lemma UntitledParagraphs(ps: seq<Element>)
    requires TitleIndex(ps).None?
    ensures TitleOf(ps) == ""
    ensures DescriptionTexts(ps, TitleIndex(ps)) == TrimmedTexts(ps)
  {
    DescriptionWithoutTitle(ps, TitleIndex(ps));
  }

  /** With the title paragraph at `k`, the title is its stripped text and
      every other paragraph text is described. */
  lemma TitledParagraphs(ps: seq<Element>, k: nat)
    requires TitleIndex(ps) == Some(k)
    ensures k < |ps|
    ensures TitleOf(ps) == if HasText(ps[k]) then Trim(ps[k].text.value) else ""
    ensures DescriptionTexts(ps, TitleIndex(ps)) == TrimmedTexts(ps[..k] + ps[k + 1..])
  {
    DescriptionSkipsTitle(ps, k);
  }

  // ---------------------------------------------------------------------------
  // Output

  function ItemJson(it: Item): Json {
    Obj([("id", OptStr(it.id)), ("titel", Str(it.titel)), ("beschreibung", Str(it.beschreibung))])
  }

  function ItemsJson(items: seq<Item>): Json {
    Arr(seq(|items|, i requires 0 <= i < |items| => ItemJson(items[i])))
  }

  /** `AgendaItem.to_dict`. */
  function ToDict(base: Metadata.Base, items: seq<Item>): Dict {
    Set(Metadata.BaseDict(base), "tagesordnungspunkte", ItemsJson(items))
  }
}
