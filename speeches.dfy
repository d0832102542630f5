/**
 * Speeches (`Speech`): one record per `rede` element, or only the first one
 * with a requested id.
 */
module Speeches {
  import opened Optional
  import opened Xml
  import opened Json
  import Metadata
  import opened Speakers

  /** A speech record; `redner` is `None` where the source emits `{}`. */
  datatype Speech = Speech(id: Option<string>, redner: Option<Speaker>, inhalt: string, kommentare: seq<string>)

  /** `rede.find("./p[@klasse='redner']/redner")`. */
  function SpeakerElement(rede: Element): Option<Element> {
    First(Select(WithAttr(Children(rede, "p"), "klasse", "redner"), "redner"))
  }

  /** The speaker of a speech: the record of its speaker element, and `None`
      when there is no such element or it has no name. */
  function SpeakerInfo(rede: Element): (r: Option<Speaker>)
    ensures r.None? <==> SpeakerElement(rede).None? || SpeakerOf(SpeakerElement(rede).value).None?
    ensures r.Some? ==> r == SpeakerOf(SpeakerElement(rede).value)
  {
    match SpeakerElement(rede)
    case None => None
    case Some(e) => SpeakerOf(e)
  }

  /** `p.get("klasse") != "redner"`: a paragraph that is not a speaker paragraph. */
  predicate IsContent(p: Element) {
    Attr(p, "klasse") != Some("redner")
  }

  /** The paragraphs of `ps` that are not speaker paragraphs, in order. */
  function ContentParagraphs(ps: seq<Element>): (r: seq<Element>)
    ensures forall x :: x in r <==> x in ps && IsContent(x)
  {
    if ps == [] then []
    else ContentParagraphs(ps[..|ps| - 1]) + (if IsContent(ps[|ps| - 1]) then [ps[|ps| - 1]] else [])
  }

  /** The record `_extract_speeches` builds for one `rede` element. */
  function SpeechOf(rede: Element): Speech {
    Speech(Attr(rede, "id"), SpeakerInfo(rede),
           Join("\n", TrimmedTexts(ContentParagraphs(DescendantsTagged(rede, "p")))),
           TrimmedTexts(DescendantsTagged(rede, "kommentar")))
  }

  /** `if specific_id`: a filter is requested by a present, non-empty id. */
  predicate Filtering(specificId: Option<string>) {
    specificId.Some? && specificId.value != ""
  }

  /** The `rede` elements `_extract_speeches` turns into records when the
      remaining ones are `redes`: all of them, or, under a filter, the first
      one with the requested id. */
  function Picked(redes: seq<Element>, specificId: Option<string>): seq<Element>
    decreases |redes|
  {
    if redes == [] then []
    else if Filtering(specificId) && Attr(redes[0], "id") != specificId then Picked(redes[1..], specificId)
    else [redes[0]] + (if Filtering(specificId) then [] else Picked(redes[1..], specificId))
  }

  /** The records of a list of `rede` elements, one each, in order. */
  function SpeechList(redes: seq<Element>): (r: seq<Speech>)
    ensures |r| == |redes| && forall i :: 0 <= i < |redes| ==> r[i] == SpeechOf(redes[i])
  {
    seq(|redes|, i requires 0 <= i < |redes| => SpeechOf(redes[i]))
  }

  /** What `_extract_speeches` returns for the `rede` elements `redes`. */
  function SpeechesOf(redes: seq<Element>, specificId: Option<string>): seq<Speech> {
    SpeechList(Picked(redes, specificId))
  }

  /** One more paragraph adds its stripped text when it is a content
      paragraph with text. */
  lemma ContentSnoc(ps: seq<Element>, p: Element)
    ensures TrimmedTexts(ContentParagraphs(ps + [p]))
            == TrimmedTexts(ContentParagraphs(ps)) + if IsContent(p) && HasText(p) then [Trim(p.text.value)] else []
  {
    assert (ps + [p])[..|ps|] == ps;
    var cp := ContentParagraphs(ps);
    if IsContent(p) {
      assert ContentParagraphs(ps + [p]) == cp + [p];
      TrimmedTextsSnoc(cp, p);
    } else {
      assert ContentParagraphs(ps + [p]) == cp + [];
      assert cp + [] == cp;
    }
  }

  /** One step of `Picked`. */
  lemma PickedCons(redes: seq<Element>, specificId: Option<string>)
    requires redes != []
    ensures Picked(redes, specificId)
            == if Filtering(specificId) && Attr(redes[0], "id") != specificId then Picked(redes[1..], specificId)
               else if Filtering(specificId) then [redes[0]]
               else [redes[0]] + Picked(redes[1..], specificId)
  {
  }

  lemma SpeechListSnoc(redes: seq<Element>, rede: Element)
    ensures SpeechList(redes + [rede]) == SpeechList(redes) + [SpeechOf(rede)]
  {
  }

  /** The loop over `rede.findall(".//p")` that gathers the speech text. */
  method CollectContent(ps: seq<Element>) returns (content: seq<string>)
    ensures content == TrimmedTexts(ContentParagraphs(ps))
  {
    content := [];
    for i := 0 to |ps|
      invariant content == TrimmedTexts(ContentParagraphs(ps[..i]))
    {
      SplitAt(ps, i);
      ContentSnoc(ps[..i], ps[i]);
      var p := ps[i];
      if Attr(p, "klasse") != Some("redner") && p.text.Some? && p.text.value != "" {
        content := content + [Trim(p.text.value)];
      }
    }
    assert ps[..|ps|] == ps;
  }

  /** The record the loop body of `_extract_speeches` builds for one `rede`. */
  method BuildSpeech(rede: Element) returns (speech: Speech)
    ensures speech == SpeechOf(rede)
  {
    var rednerElem := First(Select(WithAttr(Children(rede, "p"), "klasse", "redner"), "redner"));
    var rednerInfo: Option<Speaker> := None;
    if rednerElem.Some? {
      var nameElem := First(Children(rednerElem.value, "name"));
      if nameElem.Some? {
        rednerInfo := Some(FromName(Attr(rednerElem.value, "id"), nameElem.value));
      }
    }
    var speechContent := CollectContent(DescendantsTagged(rede, "p"));
    var kommentare := CollectTrimmedTexts(DescendantsTagged(rede, "kommentar"));
    speech := Speech(Attr(rede, "id"), rednerInfo, Join("\n", speechContent), kommentare);
  }

  /** `Speech._extract_speeches`. */
  method ExtractSpeeches(root: Element, specificId: Option<string>) returns (speeches: seq<Speech>)
    ensures speeches == SpeechesOf(DescendantsTagged(root, "rede"), specificId)
  {
    var redeElems := DescendantsTagged(root, "rede");
    ghost var all := Picked(redeElems, specificId);
    ghost var picked: seq<Element> := [];
    speeches := [];
    assert redeElems[0..] == redeElems;
    for i := 0 to |redeElems|
      invariant all == picked + Picked(redeElems[i..], specificId)
      invariant speeches == SpeechList(picked)
    {
      var rede := redeElems[i];
      var redeId := Attr(rede, "id");
      PickStep(redeElems, i, specificId, all, picked);
      if specificId.Some? && specificId.value != "" && redeId != specificId {
        continue;
      }
      var speech := BuildSpeech(rede);
      SpeechListSnoc(picked, rede);
      picked := picked + [rede];
      speeches := speeches + [speech];
      if specificId.Some? && specificId.value != "" && redeId == specificId {
        break;
      }
    }
    assert redeElems[|redeElems|..] == [];
  }

  /** One turn of the loop of `_extract_speeches`: a `rede` the filter passes
      over is dropped; a taken one is appended, and under a filter it ends
      the selection. */
  lemma PickStep(redes: seq<Element>, i: nat, specificId: Option<string>, all: seq<Element>, picked: seq<Element>)
    requires i < |redes| && all == picked + Picked(redes[i..], specificId)
    ensures if Filtering(specificId) && Attr(redes[i], "id") != specificId then all == picked + Picked(redes[i + 1..], specificId)
            else if Filtering(specificId) then all == picked + [redes[i]]
            else all == (picked + [redes[i]]) + Picked(redes[i + 1..], specificId)
  {
    PickedCons(redes[i..], specificId);
    assert redes[i..][0] == redes[i] && redes[i..][1..] == redes[i + 1..];
  }

  // ---------------------------------------------------------------------------
  // What the speech list is

  /** The position of the first `rede` with the given id, or `|redes|`. */
  function IndexOfId(redes: seq<Element>, id: Option<string>): (k: nat)
    ensures k <= |redes|
    ensures forall j :: 0 <= j < k ==> Attr(redes[j], "id") != id
    ensures k < |redes| ==> Attr(redes[k], "id") == id
  {
    if redes == [] then 0
    else if Attr(redes[0], "id") == id then 0
    else 1 + IndexOfId(redes[1..], id)
  }

  /** Without a filter every `rede` is taken, in document order. */
  lemma {:induction false} PickedAll(redes: seq<Element>, specificId: Option<string>)
    requires !Filtering(specificId)
    ensures Picked(redes, specificId) == redes
    decreases |redes|
  {
    if redes != [] {
      PickedAll(redes[1..], specificId);
    }
  }

  /** With a filter only the first `rede` with that id is taken, or none
      when no `rede` has it. */
  lemma {:induction false} PickedById(redes: seq<Element>, specificId: Option<string>)
    requires Filtering(specificId)
    ensures var k := IndexOfId(redes, specificId);
            Picked(redes, specificId) == if k < |redes| then [redes[k]] else []
    decreases |redes|
  {
    if redes != [] && Attr(redes[0], "id") != specificId {
      PickedById(redes[1..], specificId);
    }
  }

  /** Without a filter there is one record per `rede`, in document order. */
  lemma AllSpeeches(redes: seq<Element>, specificId: Option<string>)
    requires !Filtering(specificId)
    ensures |SpeechesOf(redes, specificId)| == |redes|
    ensures forall i :: 0 <= i < |redes| ==> SpeechesOf(redes, specificId)[i] == SpeechOf(redes[i])
  {
    PickedAll(redes, specificId);
  }

  /** With a filter the result is the record of the first `rede` with that
      id, alone, or nothing when no `rede` has it. */
  lemma SpeechById(redes: seq<Element>, specificId: Option<string>)
    requires Filtering(specificId)
    ensures var k := IndexOfId(redes, specificId);
            SpeechesOf(redes, specificId) == if k < |redes| then [SpeechOf(redes[k])] else []
  {
    PickedById(redes, specificId);
  }

  /** So a filtered result holds at most one speech, with the requested id,
      and is empty exactly when no `rede` has that id. */
  lemma SpeechByIdShape(redes: seq<Element>, specificId: Option<string>)
    requires Filtering(specificId)
    ensures |SpeechesOf(redes, specificId)| <= 1
    ensures forall s :: s in SpeechesOf(redes, specificId) ==> s.id == specificId
    ensures SpeechesOf(redes, specificId) == [] <==> forall j :: 0 <= j < |redes| ==> Attr(redes[j], "id") != specificId
  {
    PickedById(redes, specificId);
  }

  // ---------------------------------------------------------------------------
  // Output

  function SpeechJson(s: Speech): Json {
    Obj([("id", OptStr(s.id)),
         ("redner", match s.redner case None => Obj([]) case Some(r) => SpeakerJson(r)),
         ("inhalt", Str(s.inhalt)),
         ("kommentare", Arr(seq(|s.kommentare|, i requires 0 <= i < |s.kommentare| => Str(s.kommentare[i]))))])
  }

  function SpeechesJson(speeches: seq<Speech>): Json {
    Arr(seq(|speeches|, i requires 0 <= i < |speeches| => SpeechJson(speeches[i])))
  }

  /** `Speech.to_dict`: key `rede` for exactly one speech, else `reden`. */
  function ToDict(base: Metadata.Base, speeches: seq<Speech>): Dict {
    if |speeches| == 1 then Set(Metadata.BaseDict(base), "rede", SpeechJson(speeches[0]))
    else Set(Metadata.BaseDict(base), "reden", SpeechesJson(speeches))
  }

  /** Exactly one speech goes under `rede`, and there is no `reden`. */
  lemma OneSpeechDict(base: Metadata.Base, speeches: seq<Speech>)
    requires |speeches| == 1
    ensures Get(ToDict(base, speeches), "rede") == Some(SpeechJson(speeches[0]))
    ensures !HasKey(ToDict(base, speeches), "reden")
  {
    var v := SpeechJson(speeches[0]);
    var d := Set(Metadata.BaseDict(base), "rede", v);
    assert ToDict(base, speeches) == d;
    SpeechKeysFresh();
    assert Get(d, "rede") == Some(v) by {
      Metadata.AddSection(base, "rede", v);
    }
    assert !HasKey(d, "reden") by {
      Metadata.OtherSectionAbsent(base, "rede", v, "reden");
    }
  }

  /** Any other number of speeches, none included, goes under `reden`, and
      there is no `rede`. */
  lemma SpeechListDict(base: Metadata.Base, speeches: seq<Speech>)
    requires |speeches| != 1
    ensures Get(ToDict(base, speeches), "reden") == Some(SpeechesJson(speeches))
    ensures !HasKey(ToDict(base, speeches), "rede")
  {
    var v := SpeechesJson(speeches);
    var d := Set(Metadata.BaseDict(base), "reden", v);
    assert ToDict(base, speeches) == d;
    SpeechKeysFresh();
    assert Get(d, "reden") == Some(v) by {
      Metadata.AddSection(base, "reden", v);
    }
    assert !HasKey(d, "rede") by {
      Metadata.OtherSectionAbsent(base, "reden", v, "rede");
    }
  }

  /** Neither speech key is a metadata key, and the two differ. */
  lemma SpeechKeysFresh()
    ensures "rede" !in Metadata.BaseKeys && "reden" !in Metadata.BaseKeys && "rede" != "reden"
  {
  }

  /** Asking for one id gives key `rede` holding that speech when some `rede`
      has the id, and otherwise `reden` holding an empty list, not an error. */
  lemma SpeechDictById(base: Metadata.Base, redes: seq<Element>, specificId: Option<string>)
    requires Filtering(specificId)
    ensures var d := ToDict(base, SpeechesOf(redes, specificId));
            var k := IndexOfId(redes, specificId);
            if k < |redes| then Get(d, "rede") == Some(SpeechJson(SpeechOf(redes[k]))) && !HasKey(d, "reden")
            else Get(d, "reden") == Some(Arr([])) && !HasKey(d, "rede")
  {
    SpeechById(redes, specificId);
    var speeches := SpeechesOf(redes, specificId);
    if |speeches| == 1 {
      OneSpeechDict(base, speeches);
    } else {
      SpeechListDict(base, speeches);
      assert SpeechesJson([]) == Arr([]);
    }
  }
}
