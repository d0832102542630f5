/**
 * The speaker roster (`SpeakerList`): one record per `redner` element that has
 * a `name` child, keyed by the `id` attribute, first named occurrence wins.
 */
module Speakers {
  import opened Optional
  import opened Xml
  import opened Json
  import Metadata

  /** A speaker record; `id` is `None` when the `redner` element lacks one. */
  datatype Speaker = Speaker(id: Option<string>, vorname: string, nachname: string, titel: string, fraktion: string, rolle: string)

  /** `x.text if x is not None and x.text else ""` for `x = name.find(path)`:
      the field is the element's text, unstripped, and `""` exactly when the
      element is missing or has no text. */
  function FieldText(name: Element, path: seq<string>): (r: string)
    ensures r != "" <==> FindPath(name, path).Some? && HasText(FindPath(name, path).value)
    ensures r != "" ==> FindPath(name, path).value.text == Some(r)
  {
    match FindPath(name, path)
    case Some(x) => if HasText(x) then x.text.value else ""
    case None => ""
  }

  /** The record built from a `name` element for a speaker with the given id. */
  function FromName(id: Option<string>, name: Element): Speaker {
    Speaker(id, FieldText(name, ["vorname"]), FieldText(name, ["nachname"]), FieldText(name, ["titel"]),
            FieldText(name, ["fraktion"]), FieldText(name, ["rolle", "rolle_lang"]))
  }

  /** The record for one `redner` element, or `None` when it has no `./name`. */
  function SpeakerOf(redner: Element): (r: Option<Speaker>)
    ensures r.None? <==> Children(redner, "name") == []
    ensures r.Some? ==> r.value.id == Attr(redner, "id")
  {
    match First(Children(redner, "name"))
    case None => None
    case Some(name) => Some(FromName(Attr(redner, "id"), name))
  }

  /** `any(s["id"] == redner_id for s in speakers)`. */
  predicate IdTaken(speakers: seq<Speaker>, id: Option<string>) {
    exists i | 0 <= i < |speakers| :: speakers[i].id == id
  }

  /** The records of the `redner` elements, one per element, `None` for one
      without a name. */
  function Candidates(rs: seq<Element>): (cs: seq<Option<Speaker>>)
    ensures |cs| == |rs| && forall j :: 0 <= j < |rs| ==> cs[j] == SpeakerOf(rs[j])
  {
    seq(|rs|, j requires 0 <= j < |rs| => SpeakerOf(rs[j]))
  }

  /** One step of the loop: the list after the candidate `c` is considered. */
  function Admit(prev: seq<Speaker>, c: Option<Speaker>): seq<Speaker> {
    match c
    case None => prev
    case Some(s) => if IdTaken(prev, s.id) then prev else prev + [s]
  }

  /** The list the loop of `_extract_speakers` builds from the candidates `cs`:
      a record is appended unless its id is already taken. */
  function Dedup(cs: seq<Option<Speaker>>): seq<Speaker> {
    if cs == [] then [] else Admit(Dedup(cs[..|cs| - 1]), cs[|cs| - 1])
  }

  /** The speaker roster of a document whose `redner` elements are `rs`. */
  function Roster(rs: seq<Element>): seq<Speaker> {
    Dedup(Candidates(rs))
  }

  lemma DedupSnoc(cs: seq<Option<Speaker>>, c: Option<Speaker>)
    ensures Dedup(cs + [c]) == Admit(Dedup(cs), c)
  {
    assert (cs + [c])[..|cs|] == cs;
  }

  /** The loop body of `_extract_speakers` for one `redner` element. */
  method AddSpeaker(speakers: seq<Speaker>, redner: Element) returns (next: seq<Speaker>)
    ensures next == Admit(speakers, SpeakerOf(redner))
  {
    next := speakers;
    var rednerId := Attr(redner, "id");
    if exists j | 0 <= j < |speakers| :: speakers[j].id == rednerId {
      return;
    }
    var nameElem := First(Children(redner, "name"));
    if nameElem.None? {
      return;
    }
    var speakerInfo := FromName(rednerId, nameElem.value);
    next := speakers + [speakerInfo];
  }

  /** `SpeakerList._extract_speakers`. */
  method ExtractSpeakers(root: Element) returns (speakers: seq<Speaker>)
    ensures speakers == Roster(DescendantsTagged(root, "redner"))
  {
    var rednerElems := DescendantsTagged(root, "redner");
    ghost var cs := Candidates(rednerElems);
    speakers := [];
    for i := 0 to |rednerElems|
      invariant speakers == Dedup(cs[..i])
    {
      SplitAt(cs, i);
      DedupSnoc(cs[..i], cs[i]);
      speakers := AddSpeaker(speakers, rednerElems[i]);
    }
    assert cs[..|rednerElems|] == cs;
  }

  // ---------------------------------------------------------------------------
  // What the roster is

  /** No two entries share an id. */
  predicate DistinctIds(speakers: seq<Speaker>) {
    forall i, j :: 0 <= i < j < |speakers| ==> speakers[i].id != speakers[j].id
  }

  /** `cs[j]` is a record, and no record before it has the same id. */
  predicate FirstWithId(cs: seq<Option<Speaker>>, j: int) {
    && 0 <= j < |cs|
    && cs[j].Some?
    && forall k :: 0 <= k < j && cs[k].Some? ==> cs[k].value.id != cs[j].value.id
  }

  lemma {:induction false} DedupDistinct(cs: seq<Option<Speaker>>)
    ensures DistinctIds(Dedup(cs))
  {
    if cs != [] {
      DedupDistinct(cs[..|cs| - 1]);
    }
  }

  /** An id taken in a list stays taken when records are appended. */
  lemma TakenStaysTaken(prev: seq<Speaker>, more: seq<Speaker>, id: Option<string>)
    requires IdTaken(prev, id)
    ensures IdTaken(prev + more, id)
  {
    var i :| 0 <= i < |prev| && prev[i].id == id;
    assert (prev + more)[i] == prev[i];
  }

  lemma {:induction false} DedupComplete(cs: seq<Option<Speaker>>)
    ensures forall j :: 0 <= j < |cs| && cs[j].Some? ==> IdTaken(Dedup(cs), cs[j].value.id)
  {
    if cs != [] {
      var pre := cs[..|cs| - 1];
      var last := cs[|cs| - 1];
      DedupComplete(pre);
      var prev := Dedup(pre);
      var r := Dedup(cs);
      var more := if last.None? || IdTaken(prev, last.value.id) then [] else [last.value];
      assert r == prev + more;
      forall j | 0 <= j < |cs| && cs[j].Some? ensures IdTaken(r, cs[j].value.id) {
        if j < |pre| {
          assert cs[j] == pre[j];
          TakenStaysTaken(prev, more, pre[j].value.id);
        } else if IdTaken(prev, last.value.id) {
          TakenStaysTaken(prev, more, last.value.id);
        } else {
          assert r[|prev|].id == last.value.id;
        }
      }
    }
  }

  lemma {:induction false} DedupSound(cs: seq<Option<Speaker>>, i: int)
    requires 0 <= i < |Dedup(cs)|
    ensures exists j :: FirstWithId(cs, j) && cs[j] == Some(Dedup(cs)[i])
  {
    var pre := cs[..|cs| - 1];
    var last := cs[|cs| - 1];
    var prev := Dedup(pre);
    var r := Dedup(cs);
    if i < |prev| {
      DedupSound(pre, i);
      assert r[i] == prev[i];
      var j :| FirstWithId(pre, j) && pre[j] == Some(prev[i]);
      assert forall k :: 0 <= k <= j ==> cs[k] == pre[k];
      assert FirstWithId(cs, j) && cs[j] == Some(r[i]);
    } else {
      DedupComplete(pre);
      assert last.Some? && !IdTaken(prev, last.value.id) && r == prev + [last.value];
      forall k | 0 <= k < |pre| && cs[k].Some? ensures cs[k].value.id != last.value.id {
        assert cs[k] == pre[k];
        assert IdTaken(prev, pre[k].value.id);
      }
      assert FirstWithId(cs, |pre|) && cs[|pre|] == Some(r[i]);
    }
  }

  /** The roster never holds two entries with the same id. */
  lemma RosterDistinct(rs: seq<Element>)
    ensures DistinctIds(Roster(rs))
  {
    DedupDistinct(Candidates(rs));
  }

  /** The id of every named `redner` is in the roster: an unnamed one before
      it does not take its place. */
  lemma RosterComplete(rs: seq<Element>)
    ensures forall j :: 0 <= j < |rs| && SpeakerOf(rs[j]).Some? ==> IdTaken(Roster(rs), Attr(rs[j], "id"))
  {
    DedupComplete(Candidates(rs));
  }

  /** `rs[j]` has a name, and no named `redner` before it has the same id. */
  predicate FirstNamed(rs: seq<Element>, j: int) {
    && 0 <= j < |rs|
    && SpeakerOf(rs[j]).Some?
    && forall k :: 0 <= k < j && SpeakerOf(rs[k]).Some? ==> Attr(rs[k], "id") != Attr(rs[j], "id")
  }

  lemma FirstNamedIsFirstWithId(rs: seq<Element>, j: int)
    ensures FirstNamed(rs, j) <==> FirstWithId(Candidates(rs), j)
  {
    var cs := Candidates(rs);
    if 0 <= j < |rs| && SpeakerOf(rs[j]).Some? {
      forall k | 0 <= k < j && SpeakerOf(rs[k]).Some?
        ensures Attr(rs[k], "id") == Attr(rs[j], "id") <==> cs[k].value.id == cs[j].value.id
      {
      }
    }
  }

  /** Every roster entry is the record of the first named `redner` with its id. */
  lemma RosterSound(rs: seq<Element>, i: int)
    requires 0 <= i < |Roster(rs)|
    ensures exists j :: FirstNamed(rs, j) && SpeakerOf(rs[j]) == Some(Roster(rs)[i])
  {
    var cs := Candidates(rs);
    DedupSound(cs, i);
    var j :| FirstWithId(cs, j) && cs[j] == Some(Dedup(cs)[i]);
    FirstNamedIsFirstWithId(rs, j);
    assert FirstNamed(rs, j) && SpeakerOf(rs[j]) == Some(Roster(rs)[i]);
  }

  /** First occurrence wins: the record of the first named `redner` with an id
      is the roster's entry for that id. */
  lemma RosterFirstWins(rs: seq<Element>, j: int)
    requires FirstNamed(rs, j)
    ensures SpeakerOf(rs[j]).value in Roster(rs)
  {
    var cs := Candidates(rs);
    FirstNamedIsFirstWithId(rs, j);
    DedupFirstWins(cs, j);
  }

  lemma DedupFirstWins(cs: seq<Option<Speaker>>, j: int)
    requires FirstWithId(cs, j)
    ensures cs[j].value in Dedup(cs)
  {
    var r := Dedup(cs);
    DedupComplete(cs);
    var i :| 0 <= i < |r| && r[i].id == cs[j].value.id;
    DedupSound(cs, i);
    var j' :| FirstWithId(cs, j') && cs[j'] == Some(r[i]);
    assert j' == j;
  }

  /** A record the candidates before the last one already kept can only come
      from a first occurrence among those earlier candidates. */
  lemma WitnessBeforeLast(cs: seq<Option<Speaker>>, i: int, j: int)
    requires cs != [] && 0 <= i < |Dedup(cs[..|cs| - 1])|
    requires FirstWithId(cs, j) && cs[j] == Some(Dedup(cs[..|cs| - 1])[i])
    ensures j < |cs| - 1 && FirstWithId(cs[..|cs| - 1], j)
  {
    var pre := cs[..|cs| - 1];
    if j == |pre| {
      DedupSound(pre, i);
      assert false;
    }
    assert forall k :: 0 <= k <= j ==> cs[k] == pre[k];
  }

  lemma {:induction false} DedupOrder(cs: seq<Option<Speaker>>, i: int, i': int, j: int, j': int)
    requires 0 <= i < i' < |Dedup(cs)|
    requires FirstWithId(cs, j) && cs[j] == Some(Dedup(cs)[i])
    requires FirstWithId(cs, j') && cs[j'] == Some(Dedup(cs)[i'])
    ensures j < j'
  {
    var pre := cs[..|cs| - 1];
    var last := cs[|cs| - 1];
    var prev := Dedup(pre);
    var more := if last.None? || IdTaken(prev, last.value.id) then [] else [last.value];
    assert Dedup(cs) == prev + more;
    assert Dedup(cs)[i] == prev[i];
    WitnessBeforeLast(cs, i, j);
    if i' < |prev| {
      assert Dedup(cs)[i'] == prev[i'];
      WitnessBeforeLast(cs, i', j');
      DedupOrder(pre, i, i', j, j');
    } else if j' < |pre| {
      assert Dedup(cs)[i'] == last.value && cs[j'] == pre[j'];
      DedupComplete(pre);
      assert false;
    }
  }

  /** The roster is in document order: of two entries, the earlier one comes
      from the earlier first named `redner`. */
  lemma RosterOrder(rs: seq<Element>, i: int, i': int, j: int, j': int)
    requires 0 <= i < i' < |Roster(rs)|
    requires FirstNamed(rs, j) && SpeakerOf(rs[j]) == Some(Roster(rs)[i])
    requires FirstNamed(rs, j') && SpeakerOf(rs[j']) == Some(Roster(rs)[i'])
    ensures j < j'
  {
    var cs := Candidates(rs);
    FirstNamedIsFirstWithId(rs, j);
    FirstNamedIsFirstWithId(rs, j');
    DedupOrder(cs, i, i', j, j');
  }

  // ---------------------------------------------------------------------------
  // Output

  /** The speaker dictionary; a missing id is `null`. */
  function SpeakerJson(s: Speaker): Json {
    Obj([("id", OptStr(s.id)), ("vorname", Str(s.vorname)), ("nachname", Str(s.nachname)),
         ("titel", Str(s.titel)), ("fraktion", Str(s.fraktion)), ("rolle", Str(s.rolle))])
  }

  function SpeakersJson(speakers: seq<Speaker>): Json {
    Arr(seq(|speakers|, i requires 0 <= i < |speakers| => SpeakerJson(speakers[i])))
  }

  /** `SpeakerList.to_dict`. */
  function ToDict(base: Metadata.Base, speakers: seq<Speaker>): Dict {
    Set(Metadata.BaseDict(base), "redner", SpeakersJson(speakers))
  }
}
