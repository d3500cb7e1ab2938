/**
 * The spanning-element preprocessor: `_ppSlurs`, `_ppTies`, `_ppBeams` and `_ppTuplets` read
 * the <slur>, <tie>, <beamSpan> and <tupletSpan> elements and record, per @xml:id, extra
 * attributes for the elements they refer to; `_ppConclude` then writes those attributes into
 * the document's elements.
 */
module Preprocess {
  import opened Wrappers
  import opened Strings
  import opened Decoders
  import opened Spanners
  import opened Seqs

  /** An MEI element's attributes. */
  type Element = map<string, string>

  /**
   * The attributes recorded for one @xml:id. A value is None where the source stores an
   * attribute of the <tupletSpan> that is missing (`eachTuplet.get('num')`).
   */
  type Notes = map<string, Option<string>>

  /** `m21Attr`: @xml:id to recorded attributes; an absent id reads as no attributes. */
  type Annotations = map<string, Notes>

  const XmlId := "{http://www.w3.org/XML/1998/namespace}id"

  /** `elem.get(key)`. */
  function Get(e: Element, key: string): (r: Option<string>)
    ensures r.Some? <==> key in e
    ensures r.Some? ==> r.value == e[key]
  {
    if key in e then Some(e[key]) else None
  }

  /** The text of the warning for a spanning element the converter cannot import. */
  function Unimplemented(what: string, without: string): string {
    "Importing " + what + " without " + without + " is not yet supported."
  }

  /** `m21Attr[id]` of the defaultdict. */
  function NotesOf(ann: Annotations, id: string): Notes {
    if id in ann then ann[id] else map[]
  }

  /** `m21Attr[id][key] = v`. */
  function Put(ann: Annotations, id: string, key: string, v: Option<string>): (r: Annotations)
    ensures r.Keys == ann.Keys + {id}
    ensures NotesOf(r, id) == NotesOf(ann, id)[key := v]
    ensures forall other :: other != id ==> NotesOf(r, other) == NotesOf(ann, other)
  {
    ann[id := NotesOf(ann, id)[key := v]]
  }

  /** The label the preprocessor gives its n-th slur, in place of a random UUID. */
  function SlurLabel(n: nat): string {
    "slur" + NatToString(n)
  }

  /** Different counters give different labels, as distinct UUIDs would. */
  lemma SlurLabelInjective(m: nat, n: nat)
    requires SlurLabel(m) == SlurLabel(n)
    ensures m == n
  {
    assert NatToString(m) == SlurLabel(m)[4..];
    assert NatToString(n) == SlurLabel(n)[4..];
    NatToStringInjective(m, n);
  }

  // ---------------------------------------------------------------- the passes

  /** The converter state the passes work on: annotations, slur registry, label counter, warnings. */
  datatype Pre = Pre(ann: Annotations, slurs: seq<Slur>, next: nat, warnings: seq<string>)

  /** Every slur label in the registry was drawn from the counter before its current value. */
  ghost predicate LabelsFresh(p: Pre) {
    forall j, n: nat :: 0 <= j < |p.slurs| && p.slurs[j].idLocal == SlurLabel(n) ==> n < p.next
  }

  /** The four kinds of spanning element, each handled by its own pass. */
  datatype Spanning = SlurElems | TieElems | BeamSpanElems | TupletSpanElems

  /** What a spanner records on its two ends, the start first (so the end wins where they are the same id). */
  function MarkEnds(ann: Annotations, sid: string, skey: string, sv: Option<string>, eid: string, ekey: string, ev: Option<string>): Annotations {
    Put(Put(ann, sid, skey, sv), eid, ekey, ev)
  }

  /** `_ppSlurs` on one <slur>. */
  function SlurStep(p: Pre, e: Element): Pre {
    var s, t := Get(e, "startid"), Get(e, "endid");
    if s.Some? && t.Some? then
      var name := SlurLabel(p.next);
      p.(ann := MarkEnds(p.ann, RemoveOctothorpe(s.value), "m21SlurStart", Some(name), RemoveOctothorpe(t.value), "m21SlurEnd", Some(name)),
         slurs := p.slurs + [Slur(name, [])], next := p.next + 1)
    else p.(warnings := p.warnings + [Unimplemented("<slur>", "@startid and @endid")])
  }

  /** `_ppTies` on one <tie>: plain assignment, so a later tie replaces what an earlier one wrote. */
  function TieStep(p: Pre, e: Element): Pre {
    var s, t := Get(e, "startid"), Get(e, "endid");
    if s.Some? && t.Some? then
      p.(ann := MarkEnds(p.ann, RemoveOctothorpe(s.value), "tie", Some("i"), RemoveOctothorpe(t.value), "tie", Some("t")))
    else p.(warnings := p.warnings + [Unimplemented("<tie>", "@startid and @endid")])
  }

  /** The @plist loop of `_ppBeams`: members get 'continue' unless they have a beam already. */
  function ContinueBeams(ann: Annotations, ids: seq<string>): Annotations
    decreases |ids|
  {
    if |ids| == 0 then ann
    else
      var a := ContinueBeams(ann, ids[..|ids| - 1]);
      var id := RemoveOctothorpe(ids[|ids| - 1]);
      // an empty id is not skipped
      if "m21Beam" in NotesOf(a, id) then a else Put(a, id, "m21Beam", Some("continue"))
  }

  /** `_ppBeams` on one <beamSpan>; a missing @plist splits into the single id ''. */
  function BeamStep(p: Pre, e: Element): Pre {
    var s, t := Get(e, "startid"), Get(e, "endid");
    if s.None? || t.None? then p.(warnings := p.warnings + [Unimplemented("<beamSpan>", "@startid and @endid")])
    else
      var b := MarkEnds(p.ann, RemoveOctothorpe(s.value), "m21Beam", Some("start"), RemoveOctothorpe(t.value), "m21Beam", Some("stop"));
      p.(ann := ContinueBeams(b, Split(Get(e, "plist").GetOr(""), ' ')))
  }


  /** The @plist loop of `_ppTuplets`: every non-empty member records @num and @numbase. */
  function TupletMembers(ann: Annotations, ids: seq<string>, num: Option<string>, numbase: Option<string>): Annotations
    decreases |ids|
  {
    if |ids| == 0 then ann
    else
      var a := TupletMembers(ann, ids[..|ids| - 1], num, numbase);
      var id := RemoveOctothorpe(ids[|ids| - 1]);
      if 0 < |id| then PutCounts(a, id, num, numbase) else a
  }

  /** Records a tuplet's @num and @numbase for one id. */
  function PutCounts(ann: Annotations, id: string, num: Option<string>, numbase: Option<string>): (r: Annotations)
    ensures r.Keys == ann.Keys + {id}
    ensures NotesOf(r, id) == NotesOf(ann, id)["m21TupletNum" := num]["m21TupletNumbase" := numbase]
    ensures forall other :: other != id ==> NotesOf(r, other) == NotesOf(ann, other)
  {
    Put(Put(ann, id, "m21TupletNum", num), id, "m21TupletNumbase", numbase)
  }

  /** The search marks `_ppTuplets` leaves on one end of a <tupletSpan> without @plist. */
  function SearchMarks(ann: Annotations, id: string, role: string, num: Option<string>, numbase: Option<string>): (r: Annotations)
    ensures NotesOf(r, id) == NotesOf(ann, id)["m21TupletSearch" := Some(role)]["m21TupletNum" := num]["m21TupletNumbase" := numbase]
    ensures forall other :: other != id ==> NotesOf(r, other) == NotesOf(ann, other)
  {
    PutCounts(Put(ann, id, "m21TupletSearch", Some(role)), id, num, numbase)
  }

  /** One @plist id of `_ppBeams`. */
  lemma ContinueBeamsStep(ann: Annotations, ids: seq<string>, i: nat)
    requires i < |ids|
    ensures ContinueBeams(ann, ids[..i + 1]) ==
      var a, id := ContinueBeams(ann, ids[..i]), RemoveOctothorpe(ids[i]);
      if "m21Beam" in NotesOf(a, id) then a else Put(a, id, "m21Beam", Some("continue"))
  {
    assert ids[..i + 1][..i] == ids[..i];
  }

  /** One @plist id of `_ppTuplets`. */
  lemma TupletMembersStep(ann: Annotations, ids: seq<string>, i: nat, num: Option<string>, numbase: Option<string>)
    requires i < |ids|
    ensures TupletMembers(ann, ids[..i + 1], num, numbase) ==
      var a, id := TupletMembers(ann, ids[..i], num, numbase), RemoveOctothorpe(ids[i]);
      if 0 < |id| then PutCounts(a, id, num, numbase) else a
  {
    assert ids[..i + 1][..i] == ids[..i];
  }

  /** Both ends of a <tupletSpan> without @plist, start first. */
  function TupletEnds(ann: Annotations, sid: string, eid: string, num: Option<string>, numbase: Option<string>): Annotations {
    SearchMarks(SearchMarks(ann, sid, "start", num, numbase), eid, "end", num, numbase)
  }

  /** `_ppTuplets` on one <tupletSpan>: warn, use the @plist, or mark both ends for a later search. */
  function TupletStep(p: Pre, e: Element): Pre {
    var s, t, plist := Get(e, "startid"), Get(e, "endid"), Get(e, "plist");
    var num, numbase := Get(e, "num"), Get(e, "numbase");
    match plist
    case Some(ids) => p.(ann := TupletMembers(p.ann, Split(ids, ' '), num, numbase))
    case None =>
      if s.None? || t.None? then
        p.(warnings := p.warnings + [Unimplemented("<tupletSpan>", "@startid and @endid or @plist")])
      else p.(ann := TupletEnds(p.ann, RemoveOctothorpe(s.value), RemoveOctothorpe(t.value), num, numbase))
  }

  function Step(k: Spanning, p: Pre, e: Element): Pre {
    match k
    case SlurElems => SlurStep(p, e)
    case TieElems => TieStep(p, e)
    case BeamSpanElems => BeamStep(p, e)
    case TupletSpanElems => TupletStep(p, e)
  }

  /** One pass over the spanning elements of kind `k`, in document order. */
  function Steps(k: Spanning, p: Pre, es: seq<Element>): Pre
    decreases |es|
  {
    if |es| == 0 then p else Step(k, Steps(k, p, es[..|es| - 1]), es[|es| - 1])
  }

  /** The four passes in the order `run` calls them. */
  function AllPasses(p: Pre, slurs: seq<Element>, ties: seq<Element>, beams: seq<Element>, tuplets: seq<Element>): Pre {
    Steps(TupletSpanElems, Steps(BeamSpanElems, Steps(TieElems, Steps(SlurElems, p, slurs), ties), beams), tuplets)
  }

  // ---------------------------------------------------------------- _ppConclude

  /**
   * `_ppConclude` on one element: an element whose @xml:id has recorded attributes gets
   * each of them appended to its existing value (or to ''); `'' + None` is a TypeError.
   */
  function ConcludeElem(ann: Annotations, e: Element): Result<Element> {
    var id := Get(e, XmlId);
    if id.None? || id.value !in ann then Ok(e)
    else
      var notes := ann[id.value];
      if exists k :: k in notes && notes[k].None? then Err(PyError(TypeError))
      else Ok(map k | k in e.Keys + notes.Keys :: if k in notes then Get(e, k).GetOr("") + notes[k].value else e[k])
  }

  /** An element whose recorded attributes are all set concludes to the map with each one appended. */
  lemma ConcludeElemIs(ann: Annotations, e: Element, x: Element)
    requires XmlId in e && e[XmlId] in ann
    requires forall k :: k in ann[e[XmlId]] ==> ann[e[XmlId]][k].Some?
    requires x.Keys == e.Keys + ann[e[XmlId]].Keys
    requires forall k :: k in x ==> x[k] == if k in ann[e[XmlId]] then Get(e, k).GetOr("") + ann[e[XmlId]][k].value else e[k]
    ensures ConcludeElem(ann, e) == Ok(x)
  {
    var notes := ann[e[XmlId]];
    assert Get(e, XmlId) == Some(e[XmlId]);
    assert !exists k :: k in notes && notes[k].None?;
    var m := map k | k in e.Keys + notes.Keys :: if k in notes then Get(e, k).GetOr("") + notes[k].value else e[k];
    assert m.Keys == x.Keys;
    assert forall k :: k in m ==> m[k] == x[k];
    assert m == x;
  }

  datatype Concluded = Concluded(elems: seq<Element>, error: Option<Error>)

  /** `_ppConclude` over the document's elements: it stops at the first element that fails. */
  function ConcludeAll(ann: Annotations, es: seq<Element>): (r: Concluded)
    ensures |r.elems| == |es|
    decreases |es|
  {
    if |es| == 0 then Concluded([], None)
    else
      var p := ConcludeAll(ann, es[..|es| - 1]);
      if p.error.Some? then Concluded(p.elems + [es[|es| - 1]], p.error)
      else match ConcludeElem(ann, es[|es| - 1])
        case Err(err) => Concluded(p.elems + [es[|es| - 1]], Some(err))
        case Ok(x) => Concluded(p.elems + [x], None)
  }

  // ---------------------------------------------------------------- what each pass records

  /** The ids a list of @plist tokens names. */
  function Ids(tokens: seq<string>): set<string> {
    set t | t in tokens :: RemoveOctothorpe(t)
  }

  lemma IdsPrefix(tokens: seq<string>)
    requires |tokens| > 0
    ensures Ids(tokens) == Ids(tokens[..|tokens| - 1]) + {RemoveOctothorpe(tokens[|tokens| - 1])}
  {
    var init := tokens[..|tokens| - 1];
    assert tokens == init + [tokens[|tokens| - 1]];
    forall id | id in Ids(tokens) ensures id in Ids(init) + {RemoveOctothorpe(tokens[|tokens| - 1])} {
      var t :| t in tokens && RemoveOctothorpe(t) == id;
      if t != tokens[|tokens| - 1] {
        assert t in init;
      }
    }
  }

  /**
   * `_ppBeams`'s @plist loop: each named id ends up with a beam; one that had a beam (such as
   * the start and stop just written) keeps it, the others get 'continue'; nothing else changes.
   */
  lemma {:induction false} ContinueBeamsMeaning(ann: Annotations, ids: seq<string>)
    ensures ContinueBeams(ann, ids).Keys == ann.Keys + Ids(ids)
    ensures forall id :: id !in Ids(ids) ==> NotesOf(ContinueBeams(ann, ids), id) == NotesOf(ann, id)
    ensures forall id :: id in Ids(ids) ==> (NotesOf(ContinueBeams(ann, ids), id) ==
      if "m21Beam" in NotesOf(ann, id) then NotesOf(ann, id) else NotesOf(ann, id)["m21Beam" := Some("continue")])
    decreases |ids|
  {
    if |ids| > 0 {
      var init := ids[..|ids| - 1];
      ContinueBeamsMeaning(ann, init);
      IdsPrefix(ids);
    }
  }

  /**
   * `_ppTuplets`'s @plist loop: every non-empty id named gets the tuplet's @num and @numbase
   * (None where the <tupletSpan> lacks them); nothing else changes.
   */
  lemma TupletMembersMeaning(ann: Annotations, ids: seq<string>, num: Option<string>, numbase: Option<string>)
    ensures forall id :: id in TupletMembers(ann, ids, num, numbase) <==> id in ann || (id in Ids(ids) && |id| > 0)
    ensures forall id :: id !in Ids(ids) || |id| == 0 ==> NotesOf(TupletMembers(ann, ids, num, numbase), id) == NotesOf(ann, id)
    ensures forall id :: id in Ids(ids) && |id| > 0 ==> (NotesOf(TupletMembers(ann, ids, num, numbase), id) ==
      NotesOf(ann, id)["m21TupletNum" := num]["m21TupletNumbase" := numbase])
  {
    TupletMembersKeys(ann, ids, num, numbase);
    forall id | id !in Ids(ids) || |id| == 0
      ensures NotesOf(TupletMembers(ann, ids, num, numbase), id) == NotesOf(ann, id)
    {
      TupletMembersOthers(ann, ids, num, numbase, id);
    }
    forall id | id in Ids(ids) && |id| > 0
      ensures NotesOf(TupletMembers(ann, ids, num, numbase), id) == NotesOf(ann, id)["m21TupletNum" := num]["m21TupletNumbase" := numbase]
    {
      TupletMembersNamed(ann, ids, num, numbase, id);
    }
  }

  lemma {:induction false} TupletMembersKeys(ann: Annotations, ids: seq<string>, num: Option<string>, numbase: Option<string>)
    ensures forall id :: id in TupletMembers(ann, ids, num, numbase) <==> id in ann || (id in Ids(ids) && |id| > 0)
    decreases |ids|
  {
    if |ids| > 0 {
      var init := ids[..|ids| - 1];
      TupletMembersKeys(ann, init, num, numbase);
      IdsPrefix(ids);
      var a := TupletMembers(ann, init, num, numbase);
      var last := RemoveOctothorpe(ids[|ids| - 1]);
      assert TupletMembers(ann, ids, num, numbase) == if 0 < |last| then PutCounts(a, last, num, numbase) else a;
    }
  }

  /** Recording the same counts twice is recording them once. */
  lemma CountsTwice(m: Notes, num: Option<string>, numbase: Option<string>)
    ensures m["m21TupletNum" := num]["m21TupletNumbase" := numbase]["m21TupletNum" := num]["m21TupletNumbase" := numbase]
      == m["m21TupletNum" := num]["m21TupletNumbase" := numbase]
  {
  }

  lemma {:induction false} TupletMembersOthers(ann: Annotations, ids: seq<string>, num: Option<string>, numbase: Option<string>, id: string)
    requires id !in Ids(ids) || |id| == 0
    ensures NotesOf(TupletMembers(ann, ids, num, numbase), id) == NotesOf(ann, id)
    decreases |ids|
  {
    if |ids| > 0 {
      var init := ids[..|ids| - 1];
      IdsPrefix(ids);
      TupletMembersOthers(ann, init, num, numbase, id);
      var a := TupletMembers(ann, init, num, numbase);
      var last := RemoveOctothorpe(ids[|ids| - 1]);
      assert TupletMembers(ann, ids, num, numbase) == if 0 < |last| then PutCounts(a, last, num, numbase) else a;
    }
  }

  lemma {:induction false} TupletMembersNamed(ann: Annotations, ids: seq<string>, num: Option<string>, numbase: Option<string>, id: string)
    requires id in Ids(ids) && |id| > 0
    ensures NotesOf(TupletMembers(ann, ids, num, numbase), id) == NotesOf(ann, id)["m21TupletNum" := num]["m21TupletNumbase" := numbase]
    decreases |ids|
  {
    var init := ids[..|ids| - 1];
    IdsPrefix(ids);
    var a := TupletMembers(ann, init, num, numbase);
    var last := RemoveOctothorpe(ids[|ids| - 1]);
    assert TupletMembers(ann, ids, num, numbase) == if 0 < |last| then PutCounts(a, last, num, numbase) else a;
    if id == last {
      if id in Ids(init) {
        TupletMembersNamed(ann, init, num, numbase, id);
        CountsTwice(NotesOf(ann, id), num, numbase);
      } else {
        TupletMembersOthers(ann, init, num, numbase, id);
      }
    } else {
      TupletMembersNamed(ann, init, num, numbase, id);
    }
  }



  /**
   * `_ppSlurs` on one <slur>: with both @startid and @endid it appends one new slur, whose
   * label (unique in the registry) is recorded as @m21SlurStart on the start id and as
   * @m21SlurEnd on the end id, '#' stripped; without them it only warns.
   */
  lemma SlurStepMeaning(p: Pre, e: Element)
    requires LabelsFresh(p)
    ensures "startid" !in e || "endid" !in e ==>
      SlurStep(p, e) == p.(warnings := p.warnings + [Unimplemented("<slur>", "@startid and @endid")])
    ensures "startid" in e && "endid" in e ==>
      var r, name := SlurStep(p, e), SlurLabel(p.next);
      var sid, eid := RemoveOctothorpe(e["startid"]), RemoveOctothorpe(e["endid"]);
      && r.slurs == p.slurs + [Slur(name, [])] && r.next == p.next + 1 && r.warnings == p.warnings
      && FindSlur(r.slurs, name) == Some(|p.slurs|)
      && "m21SlurStart" in NotesOf(r.ann, sid) && NotesOf(r.ann, sid)["m21SlurStart"] == Some(name)
      && "m21SlurEnd" in NotesOf(r.ann, eid) && NotesOf(r.ann, eid)["m21SlurEnd"] == Some(name)
      && (forall id :: id != sid && id != eid ==> NotesOf(r.ann, id) == NotesOf(p.ann, id))
  {
    if "startid" in e && "endid" in e {
      var r, name := SlurStep(p, e), SlurLabel(p.next);
      forall j | 0 <= j < |p.slurs| ensures r.slurs[j].idLocal != name {
        assert r.slurs[j] == p.slurs[j];
      }
      assert r.slurs[|p.slurs|].idLocal == name;
    }
  }

  /**
   * `_ppTies` on one <tie>: the end id gets @tie 't' and the start id @tie 'i' (unless they are
   * the same id, where the later write wins); nothing else changes.
   */
  lemma TieStepMeaning(p: Pre, e: Element)
    ensures "startid" !in e || "endid" !in e ==>
      TieStep(p, e) == p.(warnings := p.warnings + [Unimplemented("<tie>", "@startid and @endid")])
    ensures "startid" in e && "endid" in e ==>
      var r := TieStep(p, e);
      var sid, eid := RemoveOctothorpe(e["startid"]), RemoveOctothorpe(e["endid"]);
      && r.slurs == p.slurs && r.next == p.next && r.warnings == p.warnings
      && NotesOf(r.ann, eid) == NotesOf(p.ann, eid)["tie" := Some("t")]
      && (sid != eid ==> NotesOf(r.ann, sid) == NotesOf(p.ann, sid)["tie" := Some("i")])
      && (forall id :: id != sid && id != eid ==> NotesOf(r.ann, id) == NotesOf(p.ann, id))
  {
  }

  /**
   * A note that ends one tie and starts the next keeps only the 'i' the later tie wrote:
   * the assignment replaces the earlier 't'.
   */
  lemma TieReplaced(p: Pre, t1: Element, t2: Element)
    requires "startid" in t1 && "endid" in t1 && "startid" in t2 && "endid" in t2
    requires RemoveOctothorpe(t1["endid"]) == RemoveOctothorpe(t2["startid"]) != RemoveOctothorpe(t2["endid"])
    ensures var id := RemoveOctothorpe(t2["startid"]);
      NotesOf(Steps(TieElems, p, [t1, t2]).ann, id) == NotesOf(p.ann, id)["tie" := Some("i")]
  {
    var id := RemoveOctothorpe(t2["startid"]);
    TwoSteps(TieElems, p, t1, t2);
    var p1 := TieStep(p, t1);
    TieStepMeaning(p, t1);
    TieStepMeaning(p1, t2);
    assert NotesOf(p1.ann, id) == NotesOf(p.ann, id)["tie" := Some("t")];
    OverwriteTwice(NotesOf(p.ann, id), "tie", Some("t"), Some("i"));
  }

  /** A second assignment to a key replaces the first. */
  lemma OverwriteTwice(m: Notes, key: string, first: Option<string>, second: Option<string>)
    ensures m[key := first][key := second] == m[key := second]
  {
  }

  /** A pass over two elements. */
  lemma TwoSteps(k: Spanning, p: Pre, e1: Element, e2: Element)
    ensures Steps(k, p, [e1, e2]) == Step(k, Step(k, p, e1), e2)
  {
    assert [e1][..0] == [];
    assert Steps(k, p, [e1]) == Step(k, p, e1);
    assert [e1, e2][..1] == [e1];
  }

  /**
   * `_ppBeams` on one <beamSpan> with both ends: the end id's beam is 'stop', the start id's
   * 'start' (when the ids differ); every @plist member has a beam, 'continue' unless it had one,
   * so 'start' and 'stop' are never overwritten; nothing else changes.
   */
  lemma BeamStepMeaning(p: Pre, e: Element)
    ensures "startid" !in e || "endid" !in e ==>
      BeamStep(p, e) == p.(warnings := p.warnings + [Unimplemented("<beamSpan>", "@startid and @endid")])
    ensures "startid" in e && "endid" in e ==>
      var r := BeamStep(p, e);
      var sid, eid := RemoveOctothorpe(e["startid"]), RemoveOctothorpe(e["endid"]);
      && r.slurs == p.slurs && r.next == p.next && r.warnings == p.warnings
      && NotesOf(r.ann, eid) == NotesOf(p.ann, eid)["m21Beam" := Some("stop")]
      && (sid != eid ==> NotesOf(r.ann, sid) == NotesOf(p.ann, sid)["m21Beam" := Some("start")])
    ensures "startid" in e && "endid" in e ==>
      var r := BeamStep(p, e);
      var sid, eid := RemoveOctothorpe(e["startid"]), RemoveOctothorpe(e["endid"]);
      var members := Ids(Split(Get(e, "plist").GetOr(""), ' '));
      && (forall id :: id in members ==> "m21Beam" in NotesOf(r.ann, id))
      && (forall id :: id in members && id != sid && id != eid ==> (NotesOf(r.ann, id) ==
            if "m21Beam" in NotesOf(p.ann, id) then NotesOf(p.ann, id) else NotesOf(p.ann, id)["m21Beam" := Some("continue")]))
      && (forall id :: id !in members && id != sid && id != eid ==> NotesOf(r.ann, id) == NotesOf(p.ann, id))
  {
    if "startid" in e && "endid" in e {
      BeamStepEnds(p, e);
      BeamStepMembers(p, e);
    }
  }

  lemma BeamStepEnds(p: Pre, e: Element)
    requires "startid" in e && "endid" in e
    ensures var r := BeamStep(p, e);
      var sid, eid := RemoveOctothorpe(e["startid"]), RemoveOctothorpe(e["endid"]);
      && r.slurs == p.slurs && r.next == p.next && r.warnings == p.warnings
      && NotesOf(r.ann, eid) == NotesOf(p.ann, eid)["m21Beam" := Some("stop")]
      && (sid != eid ==> NotesOf(r.ann, sid) == NotesOf(p.ann, sid)["m21Beam" := Some("start")])
  {
    var sid, eid := RemoveOctothorpe(e["startid"]), RemoveOctothorpe(e["endid"]);
    var b := MarkEnds(p.ann, sid, "m21Beam", Some("start"), eid, "m21Beam", Some("stop"));
    var toks := Split(Get(e, "plist").GetOr(""), ' ');
    BeamStepBoth(p, e);
    ContinueKeepsBeam(b, toks, eid);
    if sid != eid {
      ContinueKeepsBeam(b, toks, sid);
    }
  }

  /** A <beamSpan> with both ends: its ends, then the @plist loop. */
  lemma BeamStepBoth(p: Pre, e: Element)
    requires "startid" in e && "endid" in e
    ensures BeamStep(p, e) == p.(ann := ContinueBeams(MarkEnds(p.ann, RemoveOctothorpe(e["startid"]), "m21Beam", Some("start"), RemoveOctothorpe(e["endid"]), "m21Beam", Some("stop")),
                                                      Split(Get(e, "plist").GetOr(""), ' ')))
  {
    assert Get(e, "startid") == Some(e["startid"]) && Get(e, "endid") == Some(e["endid"]);
  }

  /** The @plist loop of `_ppBeams` never overwrites a beam already recorded. */
  lemma ContinueKeepsBeam(ann: Annotations, ids: seq<string>, id: string)
    requires "m21Beam" in NotesOf(ann, id)
    ensures NotesOf(ContinueBeams(ann, ids), id) == NotesOf(ann, id)
  {
    ContinueBeamsMeaning(ann, ids);
  }

  lemma BeamStepMembers(p: Pre, e: Element)
    requires "startid" in e && "endid" in e
    ensures var r := BeamStep(p, e);
      var sid, eid := RemoveOctothorpe(e["startid"]), RemoveOctothorpe(e["endid"]);
      var members := Ids(Split(Get(e, "plist").GetOr(""), ' '));
      && (forall id :: id in members ==> "m21Beam" in NotesOf(r.ann, id))
      && (forall id :: id in members && id != sid && id != eid ==> (NotesOf(r.ann, id) ==
            if "m21Beam" in NotesOf(p.ann, id) then NotesOf(p.ann, id) else NotesOf(p.ann, id)["m21Beam" := Some("continue")]))
      && (forall id :: id !in members && id != sid && id != eid ==> NotesOf(r.ann, id) == NotesOf(p.ann, id))
  {
    var sid, eid := RemoveOctothorpe(e["startid"]), RemoveOctothorpe(e["endid"]);
    var b := MarkEnds(p.ann, sid, "m21Beam", Some("start"), eid, "m21Beam", Some("stop"));
    var toks := Split(Get(e, "plist").GetOr(""), ' ');
    BeamStepBoth(p, e);
    ContinueBeamsMeaning(b, toks);
  }


  /** A <beamSpan> without @plist records a 'continue' beam for the id ''. */
  lemma BeamWithoutPlistExample()
    ensures var r := BeamStep(Pre(map[], [], 0, []), map["startid" := "#a", "endid" := "#b"]);
      "" in r.ann && r.ann[""] == map["m21Beam" := Some("continue")]
  {
    var e := map["startid" := "#a", "endid" := "#b"];
    assert Get(e, "plist").GetOr("") == "";
    assert Split("", ' ') == [""];
    assert RemoveOctothorpe("") == "";
    assert RemoveOctothorpe("#a") == "a" && RemoveOctothorpe("#b") == "b";
    BeamStepMeaning(Pre(map[], [], 0, []), e);
    assert "" in Ids([""]);
  }

  /**
   * `_ppTuplets` on one <tupletSpan>: it warns when it has no @plist and lacks @startid or
   * @endid; with a @plist every non-empty member records @num and @numbase; otherwise the
   * start id is marked for a 'start' search and the end id for an 'end' search, both with the
   * counts. A missing count is recorded as None.
   */
  lemma TupletStepMeaning(p: Pre, e: Element)
    ensures ("startid" !in e || "endid" !in e) && "plist" !in e ==>
      TupletStep(p, e) == p.(warnings := p.warnings + [Unimplemented("<tupletSpan>", "@startid and @endid or @plist")])
    ensures "plist" in e ==>
      var r, members := TupletStep(p, e), Ids(Split(e["plist"], ' '));
      var num, numbase := Get(e, "num"), Get(e, "numbase");
      && r.slurs == p.slurs && r.next == p.next && r.warnings == p.warnings
      && (forall id :: id in members && |id| > 0 ==>
            NotesOf(r.ann, id) == NotesOf(p.ann, id)["m21TupletNum" := num]["m21TupletNumbase" := numbase])
      && (forall id :: id !in members || |id| == 0 ==> NotesOf(r.ann, id) == NotesOf(p.ann, id))
    ensures "startid" in e && "endid" in e && "plist" !in e ==>
      var r := TupletStep(p, e);
      var sid, eid := RemoveOctothorpe(e["startid"]), RemoveOctothorpe(e["endid"]);
      var num, numbase := Get(e, "num"), Get(e, "numbase");
      && r.slurs == p.slurs && r.next == p.next && r.warnings == p.warnings
      && NotesOf(r.ann, eid) == NotesOf(p.ann, eid)["m21TupletSearch" := Some("end")]["m21TupletNum" := num]["m21TupletNumbase" := numbase]
      && (sid != eid ==>
            NotesOf(r.ann, sid) == NotesOf(p.ann, sid)["m21TupletSearch" := Some("start")]["m21TupletNum" := num]["m21TupletNumbase" := numbase])
      && (forall id :: id != sid && id != eid ==> NotesOf(r.ann, id) == NotesOf(p.ann, id))
  {
    TupletStepWarns(p, e);
    TupletStepPlist(p, e);
    TupletStepSearch(p, e);
  }

  lemma TupletStepWarns(p: Pre, e: Element)
    ensures ("startid" !in e || "endid" !in e) && "plist" !in e ==>
      TupletStep(p, e) == p.(warnings := p.warnings + [Unimplemented("<tupletSpan>", "@startid and @endid or @plist")])
  {
  }

  lemma TupletStepPlist(p: Pre, e: Element)
    ensures "plist" in e ==>
      var r, members := TupletStep(p, e), Ids(Split(e["plist"], ' '));
      var num, numbase := Get(e, "num"), Get(e, "numbase");
      && r.slurs == p.slurs && r.next == p.next && r.warnings == p.warnings
      && (forall id :: id in members && |id| > 0 ==>
            NotesOf(r.ann, id) == NotesOf(p.ann, id)["m21TupletNum" := num]["m21TupletNumbase" := numbase])
      && (forall id :: id !in members || |id| == 0 ==> NotesOf(r.ann, id) == NotesOf(p.ann, id))
  {
    if "plist" in e {
      TupletMembersMeaning(p.ann, Split(e["plist"], ' '), Get(e, "num"), Get(e, "numbase"));
    }
  }

  /** A <tupletSpan> with both ends and no @plist marks both ends for the later search. */
  lemma TupletStepNoPlist(p: Pre, e: Element)
    requires "startid" in e && "endid" in e && "plist" !in e
    ensures TupletStep(p, e) == p.(ann := TupletEnds(p.ann, RemoveOctothorpe(e["startid"]), RemoveOctothorpe(e["endid"]), Get(e, "num"), Get(e, "numbase")))
  {
    assert Get(e, "plist").None? && Get(e, "startid") == Some(e["startid"]) && Get(e, "endid") == Some(e["endid"]);
  }

  lemma TupletStepSearch(p: Pre, e: Element)
    ensures "startid" in e && "endid" in e && "plist" !in e ==>
      var r := TupletStep(p, e);
      var sid, eid := RemoveOctothorpe(e["startid"]), RemoveOctothorpe(e["endid"]);
      var num, numbase := Get(e, "num"), Get(e, "numbase");
      && r.slurs == p.slurs && r.next == p.next && r.warnings == p.warnings
      && NotesOf(r.ann, eid) == NotesOf(p.ann, eid)["m21TupletSearch" := Some("end")]["m21TupletNum" := num]["m21TupletNumbase" := numbase]
      && (sid != eid ==>
            NotesOf(r.ann, sid) == NotesOf(p.ann, sid)["m21TupletSearch" := Some("start")]["m21TupletNum" := num]["m21TupletNumbase" := numbase])
      && (forall id :: id != sid && id != eid ==> NotesOf(r.ann, id) == NotesOf(p.ann, id))
  {
    if "startid" in e && "endid" in e && "plist" !in e {
      var sid, eid := RemoveOctothorpe(e["startid"]), RemoveOctothorpe(e["endid"]);
      var num, numbase := Get(e, "num"), Get(e, "numbase");
      TupletStepNoPlist(p, e);
      if sid == eid {
        MarksTwice(NotesOf(p.ann, sid), num, numbase);
      }
    }
  }

  /** Marking an id for an 'end' search after a 'start' one leaves only the 'end' mark. */
  lemma MarksTwice(m: Notes, num: Option<string>, numbase: Option<string>)
    ensures m["m21TupletSearch" := Some("start")]["m21TupletNum" := num]["m21TupletNumbase" := numbase]
      ["m21TupletSearch" := Some("end")]["m21TupletNum" := num]["m21TupletNumbase" := numbase]
      == m["m21TupletSearch" := Some("end")]["m21TupletNum" := num]["m21TupletNumbase" := numbase]
  {
  }


  // ---------------------------------------------------------------- the slur registry invariant

  predicate IsSlurKey(key: string) {
    key == "m21SlurStart" || key == "m21SlurEnd"
  }

  /** Every @m21SlurStart and @m21SlurEnd recorded names a slur of the registry. */
  ghost predicate SlurRefsResolve(p: Pre) {
    forall id, key :: key in NotesOf(p.ann, id) && IsSlurKey(key) ==>
      NotesOf(p.ann, id)[key].Some? && FindSlur(p.slurs, NotesOf(p.ann, id)[key].value).Some?
  }

  /** What `addSlurs` relies on: slur references resolve and labels come from the counter. */
  ghost predicate Valid(p: Pre) {
    SlurRefsResolve(p) && LabelsFresh(p)
  }

  /** Two annotation maps record the same slur references. */
  ghost predicate SameSlurKeys(a: Annotations, b: Annotations) {
    forall id, key :: IsSlurKey(key) ==>
      (key in NotesOf(a, id) <==> key in NotesOf(b, id)) &&
      (key in NotesOf(a, id) ==> NotesOf(a, id)[key] == NotesOf(b, id)[key])
  }

  /** A slur found in the registry is still found once another is appended. */
  lemma FindSlurKept(slurs: seq<Slur>, x: Slur, name: string)
    requires FindSlur(slurs, name).Some?
    ensures FindSlur(slurs + [x], name).Some?
  {
    var v := FindSlur(slurs, name).value;
    assert (slurs + [x])[v].idLocal == name;
  }

  lemma PutKeepsSlurKeys(ann: Annotations, id: string, key: string, v: Option<string>)
    requires !IsSlurKey(key)
    ensures SameSlurKeys(ann, Put(ann, id, key, v))
  {
  }

  lemma SameSlurKeysTrans(a: Annotations, b: Annotations, c: Annotations)
    requires SameSlurKeys(a, b) && SameSlurKeys(b, c)
    ensures SameSlurKeys(a, c)
  {
  }

  lemma {:induction false} ContinueKeepsSlurKeys(ann: Annotations, ids: seq<string>)
    ensures SameSlurKeys(ann, ContinueBeams(ann, ids))
    decreases |ids|
  {
    if |ids| > 0 {
      var a := ContinueBeams(ann, ids[..|ids| - 1]);
      ContinueKeepsSlurKeys(ann, ids[..|ids| - 1]);
      PutKeepsSlurKeys(a, RemoveOctothorpe(ids[|ids| - 1]), "m21Beam", Some("continue"));
      SameSlurKeysTrans(ann, a, ContinueBeams(ann, ids));
    }
  }

  lemma {:induction false} MembersKeepSlurKeys(ann: Annotations, ids: seq<string>, num: Option<string>, numbase: Option<string>)
    ensures SameSlurKeys(ann, TupletMembers(ann, ids, num, numbase))
    decreases |ids|
  {
    if |ids| > 0 {
      var a := TupletMembers(ann, ids[..|ids| - 1], num, numbase);
      var id := RemoveOctothorpe(ids[|ids| - 1]);
      MembersKeepSlurKeys(ann, ids[..|ids| - 1], num, numbase);
      PutKeepsSlurKeys(a, id, "m21TupletNum", num);
      PutKeepsSlurKeys(Put(a, id, "m21TupletNum", num), id, "m21TupletNumbase", numbase);
      SameSlurKeysTrans(a, Put(a, id, "m21TupletNum", num), PutCounts(a, id, num, numbase));
      SameSlurKeysTrans(ann, a, TupletMembers(ann, ids, num, numbase));
    }
  }

  lemma MarksKeepSlurKeys(ann: Annotations, id: string, role: string, num: Option<string>, numbase: Option<string>)
    ensures SameSlurKeys(ann, SearchMarks(ann, id, role, num, numbase))
  {
    var a := Put(ann, id, "m21TupletSearch", Some(role));
    PutKeepsSlurKeys(ann, id, "m21TupletSearch", Some(role));
    PutKeepsSlurKeys(a, id, "m21TupletNum", num);
    PutKeepsSlurKeys(Put(a, id, "m21TupletNum", num), id, "m21TupletNumbase", numbase);
  }

  /** The tie, beam and tuplet passes neither touch the registry nor any slur reference. */
  lemma OtherStepKeepsSlurs(k: Spanning, p: Pre, e: Element)
    requires k != SlurElems
    ensures Step(k, p, e).slurs == p.slurs && Step(k, p, e).next == p.next
    ensures SameSlurKeys(p.ann, Step(k, p, e).ann)
  {
    var s, t := Get(e, "startid"), Get(e, "endid");
    match k
    case TieElems =>
      if s.Some? && t.Some? {
        var a := Put(p.ann, RemoveOctothorpe(s.value), "tie", Some("i"));
        PutKeepsSlurKeys(p.ann, RemoveOctothorpe(s.value), "tie", Some("i"));
        PutKeepsSlurKeys(a, RemoveOctothorpe(t.value), "tie", Some("t"));
      }
    case BeamSpanElems =>
      if s.Some? && t.Some? {
        var a := Put(p.ann, RemoveOctothorpe(s.value), "m21Beam", Some("start"));
        var b := Put(a, RemoveOctothorpe(t.value), "m21Beam", Some("stop"));
        PutKeepsSlurKeys(p.ann, RemoveOctothorpe(s.value), "m21Beam", Some("start"));
        PutKeepsSlurKeys(a, RemoveOctothorpe(t.value), "m21Beam", Some("stop"));
        ContinueKeepsSlurKeys(b, Split(Get(e, "plist").GetOr(""), ' '));
        SameSlurKeysTrans(p.ann, a, b);
        SameSlurKeysTrans(p.ann, b, Step(k, p, e).ann);
      }
    case TupletSpanElems =>
      var plist := Get(e, "plist");
      if plist.Some? {
        MembersKeepSlurKeys(p.ann, Split(plist.value, ' '), Get(e, "num"), Get(e, "numbase"));
      } else if s.Some? && t.Some? {
        var a := SearchMarks(p.ann, RemoveOctothorpe(s.value), "start", Get(e, "num"), Get(e, "numbase"));
        MarksKeepSlurKeys(p.ann, RemoveOctothorpe(s.value), "start", Get(e, "num"), Get(e, "numbase"));
        MarksKeepSlurKeys(a, RemoveOctothorpe(t.value), "end", Get(e, "num"), Get(e, "numbase"));
        SameSlurKeysTrans(p.ann, a, Step(k, p, e).ann);
      }
  }

  /** Every pass step keeps the registry invariant. */
  lemma StepValid(k: Spanning, p: Pre, e: Element)
    requires Valid(p)
    ensures Valid(Step(k, p, e))
  {
    var r := Step(k, p, e);
    if k == SlurElems {
      if "startid" in e && "endid" in e {
        var name := SlurLabel(p.next);
        SlurStepMeaning(p, e);
        var sid, eid := RemoveOctothorpe(e["startid"]), RemoveOctothorpe(e["endid"]);
        forall id, key | key in NotesOf(r.ann, id) && IsSlurKey(key)
          ensures NotesOf(r.ann, id)[key].Some? && FindSlur(r.slurs, NotesOf(r.ann, id)[key].value).Some?
        {
          if !((id == sid && key == "m21SlurStart") || (id == eid && key == "m21SlurEnd")) {
            assert key in NotesOf(p.ann, id) && NotesOf(r.ann, id)[key] == NotesOf(p.ann, id)[key];
            FindSlurKept(p.slurs, Slur(name, []), NotesOf(p.ann, id)[key].value);
          }
        }
        forall j, n: nat | 0 <= j < |r.slurs| && r.slurs[j].idLocal == SlurLabel(n) ensures n < r.next {
          if j == |p.slurs| {
            SlurLabelInjective(n, p.next);
          } else {
            assert p.slurs[j] == r.slurs[j];
          }
        }
      }
    } else {
      OtherStepKeepsSlurs(k, p, e);
      forall id, key | key in NotesOf(r.ann, id) && IsSlurKey(key)
        ensures NotesOf(r.ann, id)[key].Some? && FindSlur(r.slurs, NotesOf(r.ann, id)[key].value).Some?
      {
        assert key in NotesOf(p.ann, id);
      }
    }
  }

  /** A whole pass keeps the registry invariant. */
  lemma {:induction false} StepsValid(k: Spanning, p: Pre, es: seq<Element>)
    requires Valid(p)
    ensures Valid(Steps(k, p, es))
    decreases |es|
  {
    if |es| > 0 {
      StepsValid(k, p, es[..|es| - 1]);
      StepValid(k, Steps(k, p, es[..|es| - 1]), es[|es| - 1]);
    }
  }

  /**
   * After the four passes, starting from the converter's initial state, every slur reference
   * recorded for an element names a slur of the registry, and the labels are the counter's.
   */
  lemma AllPassesValid(slurs: seq<Element>, ties: seq<Element>, beams: seq<Element>, tuplets: seq<Element>)
    ensures Valid(AllPasses(Pre(map[], [], 0, []), slurs, ties, beams, tuplets))
  {
    var p0 := Pre(map[], [], 0, []);
    StepsValid(SlurElems, p0, slurs);
    var p1 := Steps(SlurElems, p0, slurs);
    StepsValid(TieElems, p1, ties);
    var p2 := Steps(TieElems, p1, ties);
    StepsValid(BeamSpanElems, p2, beams);
    StepsValid(TupletSpanElems, Steps(BeamSpanElems, p2, beams), tuplets);
  }

  // ---------------------------------------------------------------- what a whole pass does

  /** The elements a pass cannot import: they lack references (and, for tuplets, a @plist). */
  predicate Unsupported(k: Spanning, e: Element) {
    if k == TupletSpanElems then ("startid" !in e || "endid" !in e) && "plist" !in e
    else "startid" !in e || "endid" !in e
  }

  function WarningText(k: Spanning): string {
    match k
    case SlurElems => Unimplemented("<slur>", "@startid and @endid")
    case TieElems => Unimplemented("<tie>", "@startid and @endid")
    case BeamSpanElems => Unimplemented("<beamSpan>", "@startid and @endid")
    case TupletSpanElems => Unimplemented("<tupletSpan>", "@startid and @endid or @plist")
  }

  /** One warning per unsupported element, in document order. */
  function WarningsFor(k: Spanning, es: seq<Element>): (r: seq<string>)
    ensures |r| <= |es|
    ensures forall i :: 0 <= i < |r| ==> r[i] == WarningText(k)
    decreases |es|
  {
    if |es| == 0 then []
    else WarningsFor(k, es[..|es| - 1]) + (if Unsupported(k, es[|es| - 1]) then [WarningText(k)] else [])
  }

  /** The number of <slur>s with both references. */
  function Complete(es: seq<Element>): (r: nat)
    ensures r <= |es|
    decreases |es|
  {
    if |es| == 0 then 0 else Complete(es[..|es| - 1]) + (if Unsupported(SlurElems, es[|es| - 1]) then 0 else 1)
  }

  /** The slurs the counter labels from `from` on. */
  function NewSlurs(from: nat, count: nat): (r: seq<Slur>)
    ensures |r| == count
  {
    if count == 0 then [] else NewSlurs(from, count - 1) + [Slur(SlurLabel(from + count - 1), [])]
  }

  /** The j-th new slur is labelled by counter value `from + j` and has no members yet. */
  lemma {:induction false} NewSlursLabels(from: nat, count: nat)
    ensures forall j :: 0 <= j < count ==> NewSlurs(from, count)[j] == Slur(SlurLabel(from + j), [])
  {
    if count > 0 {
      NewSlursLabels(from, count - 1);
      assert forall j :: 0 <= j < count - 1 ==> NewSlurs(from, count)[j] == NewSlurs(from, count - 1)[j];
    }
  }

  /** A pass warns once for every element it cannot import, and only then. */
  lemma {:induction false} StepsWarnings(k: Spanning, p: Pre, es: seq<Element>)
    ensures Steps(k, p, es).warnings == p.warnings + WarningsFor(k, es)
    decreases |es|
  {
    if |es| > 0 {
      StepsWarnings(k, p, es[..|es| - 1]);
      var q := Steps(k, p, es[..|es| - 1]);
      var e := es[|es| - 1];
      match k
      case SlurElems => SlurStepWarnings(q, e);
      case TieElems => TieStepMeaning(q, e);
      case BeamSpanElems => BeamStepMeaning(q, e);
      case TupletSpanElems => TupletStepMeaning(q, e);
    }
  }

  lemma SlurStepWarnings(p: Pre, e: Element)
    ensures SlurStep(p, e).warnings == p.warnings + (if Unsupported(SlurElems, e) then [WarningText(SlurElems)] else [])
  {
  }

  /**
   * `_ppSlurs` appends exactly one fresh slur, labelled by the counter in order, for each
   * <slur> with both references, and nothing else.
   */
  lemma {:induction false} SlurPassRegistry(p: Pre, es: seq<Element>)
    ensures Steps(SlurElems, p, es).slurs == p.slurs + NewSlurs(p.next, Complete(es))
    ensures Steps(SlurElems, p, es).next == p.next + Complete(es)
    decreases |es|
  {
    if |es| > 0 {
      var init, last := es[..|es| - 1], es[|es| - 1];
      SlurPassRegistry(p, init);
      var q := Steps(SlurElems, p, init);
      assert Steps(SlurElems, p, es) == SlurStep(q, last);
      SlurStepRegistry(q, last);
      var c := Complete(init);
      var u := Unsupported(SlurElems, last);
      assert Complete(es) == c + (if u then 0 else 1);
      RegistryGrows(p.slurs, q.slurs, Steps(SlurElems, p, es).slurs, p.next, c, u);
    }
  }

  /**
   * Registry `now` is `before` with the first `c` new slurs, and `after` adds the one
   * labelled `from + c` unless `skipped`: then `after` is `before` with the first `c + 1`.
   */
  lemma RegistryGrows(before: seq<Slur>, now: seq<Slur>, after: seq<Slur>, from: nat, c: nat, skipped: bool)
    requires now == before + NewSlurs(from, c)
    requires after == now + (if skipped then [] else [Slur(SlurLabel(from + c), [])])
    ensures after == before + NewSlurs(from, c + (if skipped then 0 else 1))
  {
    if !skipped {
      AppendAssoc(before, NewSlurs(from, c), [Slur(SlurLabel(from + c), [])]);
    }
  }

  /** One <slur> adds one fresh slur to the registry, unless it cannot be imported. */
  lemma SlurStepRegistry(p: Pre, e: Element)
    ensures SlurStep(p, e).slurs == p.slurs + (if Unsupported(SlurElems, e) then [] else [Slur(SlurLabel(p.next), [])])
    ensures SlurStep(p, e).next == p.next + (if Unsupported(SlurElems, e) then 0 else 1)
  {
    assert Get(e, "startid").Some? <==> "startid" in e;
    assert Get(e, "endid").Some? <==> "endid" in e;
  }

  /** The tie, beam and tuplet passes leave the registry and the counter as they are. */
  lemma {:induction false} OtherPassKeepsRegistry(k: Spanning, p: Pre, es: seq<Element>)
    requires k != SlurElems
    ensures Steps(k, p, es).slurs == p.slurs && Steps(k, p, es).next == p.next
    ensures SameSlurKeys(p.ann, Steps(k, p, es).ann)
    decreases |es|
  {
    if |es| > 0 {
      var q := Steps(k, p, es[..|es| - 1]);
      OtherPassKeepsRegistry(k, p, es[..|es| - 1]);
      OtherStepKeepsSlurs(k, q, es[|es| - 1]);
      SameSlurKeysTrans(p.ann, q.ann, Steps(k, p, es).ann);
    }
  }

  /** The example of `_ppSlurs`: both ends carry the label of the one slur in the registry. */
  lemma SlurPassExample()
    ensures var r := Steps(SlurElems, Pre(map[], [], 0, []), [map["startid" := "#1234", "endid" := "#2345"]]);
      && |r.slurs| == 1
      && "1234" in r.ann && "m21SlurStart" in r.ann["1234"]
      && "2345" in r.ann && "m21SlurEnd" in r.ann["2345"]
      && r.ann["1234"]["m21SlurStart"] == r.ann["2345"]["m21SlurEnd"] == Some(r.slurs[0].idLocal)
  {
    var e := map["startid" := "#1234", "endid" := "#2345"];
    var p0 := Pre(map[], [], 0, []);
    assert [e][..0] == [];
    assert RemoveOctothorpe("#1234") == "1234" && RemoveOctothorpe("#2345") == "2345";
    SlurStepMeaning(p0, e);
  }

  // ---------------------------------------------------------------- what _ppConclude does

  /**
   * `_ppConclude` on one element: only an element whose @xml:id has recorded attributes
   * changes; each recorded attribute becomes its old value (or '') followed by the recorded
   * one, all other attributes stay; a recorded None fails with a TypeError.
   */
  lemma ConcludeElemMeaning(ann: Annotations, e: Element)
    ensures XmlId !in e || e[XmlId] !in ann ==> ConcludeElem(ann, e) == Ok(e)
    ensures XmlId in e && e[XmlId] in ann ==>
      (ConcludeElem(ann, e).Err? <==> exists k :: k in ann[e[XmlId]] && ann[e[XmlId]][k].None?)
    ensures ConcludeElem(ann, e).Err? ==> ConcludeElem(ann, e) == Err(PyError(TypeError))
    ensures XmlId in e && e[XmlId] in ann && ConcludeElem(ann, e).Ok? ==>
      var r, notes := ConcludeElem(ann, e).value, ann[e[XmlId]];
      && r.Keys == e.Keys + notes.Keys
      && (forall k :: k in notes ==> notes[k].Some? && r[k] == Get(e, k).GetOr("") + notes[k].value)
      && (forall k :: k in e && k !in notes ==> r[k] == e[k])
  {
  }

  /** One element of `_ppConclude`, while nothing has failed yet. */
  lemma ConcludeStep(ann: Annotations, es: seq<Element>, i: nat)
    requires i < |es| && ConcludeAll(ann, es[..i]).error.None?
    ensures ConcludeAll(ann, es[..i + 1]) == match ConcludeElem(ann, es[i])
      case Err(err) => Concluded(ConcludeAll(ann, es[..i]).elems + [es[i]], Some(err))
      case Ok(x) => Concluded(ConcludeAll(ann, es[..i]).elems + [x], None)
  {
    assert es[..i + 1][..i] == es[..i];
  }

  /** The loop of `_ppConclude` one element further: `after` is `before` with element `i` written back or not. */
  lemma ConcludeAdvance(ann: Annotations, es: seq<Element>, before: seq<Element>, after: seq<Element>, i: nat, err: Option<Error>)
    requires i < |es| == |before| && before[i..] == es[i..]
    requires ConcludeAll(ann, es[..i]) == Concluded(before[..i], None)
    requires ConcludeElem(ann, before[i]).Err? ==> err == Some(ConcludeElem(ann, before[i]).error) && after == before
    requires ConcludeElem(ann, before[i]).Ok? ==> err.None? && after == before[i := ConcludeElem(ann, before[i]).value]
    ensures ConcludeAll(ann, es[..i + 1]) == Concluded(after[..i + 1], err)
    ensures after[i + 1..] == es[i + 1..]
  {
    ConcludeStep(ann, es, i);
    assert before[i] == es[i];
    if err.None? {
      UpdateSplit(before, es, i, after[i]);
    } else {
      UpdateSplit(before, es, i, before[i]);
      assert before[i := before[i]] == before;
    }
  }

  /** After an element fails, `_ppConclude` has stopped: the later elements stay as they are. */
  lemma {:induction false} ConcludeAfterError(ann: Annotations, es: seq<Element>, k: nat)
    requires k <= |es| && ConcludeAll(ann, es[..k]).error.Some?
    ensures ConcludeAll(ann, es) == Concluded(ConcludeAll(ann, es[..k]).elems + es[k..], ConcludeAll(ann, es[..k]).error)
    decreases |es| - k
  {
    if k < |es| {
      var p := ConcludeAll(ann, es[..k]);
      assert es[..k + 1][..k] == es[..k];
      assert ConcludeAll(ann, es[..k + 1]) == Concluded(p.elems + [es[k]], p.error);
      ConcludeAfterError(ann, es, k + 1);
      assert p.elems + [es[k]] + es[k + 1..] == p.elems + es[k..];
    } else {
      assert es[..k] == es;
    }
  }

  /**
   * `_ppConclude` over the document: if no element fails, every element is concluded;
   * otherwise the elements before the first failure are concluded, that one and the rest are
   * as they were, and its error is the pass's.
   */
  lemma ConcludeAllMeaning(ann: Annotations, es: seq<Element>)
    ensures ConcludeAll(ann, es).error.None? <==> forall i :: 0 <= i < |es| ==> ConcludeElem(ann, es[i]).Ok?
    ensures ConcludeAll(ann, es).error.None? ==>
      forall i :: 0 <= i < |es| ==> ConcludeAll(ann, es).elems[i] == ConcludeElem(ann, es[i]).value
    ensures ConcludeAll(ann, es).error.Some? ==> exists i :: 0 <= i < |es| && FirstFailure(ann, es, i)
  {
    ConcludeAllOk(ann, es);
    if ConcludeAll(ann, es).error.Some? {
      ConcludeAllFails(ann, es);
    }
  }

  lemma {:induction false} ConcludeAllOk(ann: Annotations, es: seq<Element>)
    ensures ConcludeAll(ann, es).error.None? <==> forall i :: 0 <= i < |es| ==> ConcludeElem(ann, es[i]).Ok?
    ensures ConcludeAll(ann, es).error.None? ==>
      forall i :: 0 <= i < |es| ==> ConcludeAll(ann, es).elems[i] == ConcludeElem(ann, es[i]).value
    decreases |es|
  {
    if |es| > 0 {
      var init := es[..|es| - 1];
      ConcludeAllOk(ann, init);
      assert forall i :: 0 <= i < |init| ==> init[i] == es[i];
    }
  }

  lemma {:induction false} ConcludeAllFails(ann: Annotations, es: seq<Element>)
    requires ConcludeAll(ann, es).error.Some?
    ensures exists i :: 0 <= i < |es| && FirstFailure(ann, es, i)
    decreases |es|
  {
    var init := es[..|es| - 1];
    var last := es[|es| - 1];
    var p := ConcludeAll(ann, init);
    assert forall i :: 0 <= i < |init| ==> init[i] == es[i];
    if p.error.Some? {
      ConcludeAllFails(ann, init);
      var i :| 0 <= i < |init| && FirstFailure(ann, init, i);
      assert ConcludeAll(ann, es).elems == p.elems + [last];
      AppendTail(p.elems, last, i);
      TailSnoc(es, i);
      assert FirstFailure(ann, es, i);
    } else {
      ConcludeAllOk(ann, init);
      assert FirstFailure(ann, es, |es| - 1);
    }
  }

  /** Element i is the first one that fails, and the pass ended at it. */
  ghost predicate FirstFailure(ann: Annotations, es: seq<Element>, i: nat)
    requires i < |es|
  {
    var r := ConcludeAll(ann, es);
    && ConcludeElem(ann, es[i]).Err? && r.error == Some(ConcludeElem(ann, es[i]).error)
    && (forall k :: 0 <= k < i ==> ConcludeElem(ann, es[k]).Ok? && r.elems[k] == ConcludeElem(ann, es[k]).value)
    && r.elems[i..] == es[i..]
  }

  // ---------------------------------------------------------------- the converter

  /** The part of `MeiToM21Converter` the preprocessor works on. */
  class Converter {
    /** `m21Attr`. */
    var annotations: Annotations
    /** The counter that stands in for `uuid4()`. */
    var nextLabel: nat
    /** The warnings logged so far. */
    var warnings: seq<string>
    /** `slurBundle`. */
    const bundle: SlurBundle

    /** A new converter: nothing recorded, an empty slur registry. */
    constructor()
      ensures annotations == map[] && nextLabel == 0 && warnings == []
      ensures fresh(bundle) && bundle.slurs == []
    {
      annotations, nextLabel, warnings := map[], 0, [];
      bundle := new SlurBundle();
    }

    function State(): Pre
      reads this, bundle
    {
      Pre(annotations, bundle.slurs, nextLabel, warnings)
    }

    /** `_ppSlurs` on one <slur>. */
    method SlurOne(e: Element)
      modifies this, bundle
      ensures State() == SlurStep(old(State()), e)
    {
      var s, t := Get(e, "startid"), Get(e, "endid");
      if s.Some? && t.Some? {
        var name := SlurLabel(nextLabel);
        nextLabel := nextLabel + 1;
        bundle.Append(Slur(name, []));
        annotations := Put(annotations, RemoveOctothorpe(s.value), "m21SlurStart", Some(name));
        annotations := Put(annotations, RemoveOctothorpe(t.value), "m21SlurEnd", Some(name));
      } else {
        warnings := warnings + [Unimplemented("<slur>", "@startid and @endid")];
      }
    }

    /** `_ppTies` on one <tie>. */
    method TieOne(e: Element)
      modifies this
      ensures State() == TieStep(old(State()), e)
    {
      var s, t := Get(e, "startid"), Get(e, "endid");
      if s.Some? && t.Some? {
        annotations := Put(annotations, RemoveOctothorpe(s.value), "tie", Some("i"));
        annotations := Put(annotations, RemoveOctothorpe(t.value), "tie", Some("t"));
      } else {
        warnings := warnings + [Unimplemented("<tie>", "@startid and @endid")];
      }
    }

    /** `_ppBeams` on one <beamSpan>, with its loop over the @plist. */
    method BeamOne(e: Element)
      modifies this
      ensures State() == BeamStep(old(State()), e)
    {
      var s, t := Get(e, "startid"), Get(e, "endid");
      if s.None? || t.None? {
        warnings := warnings + [Unimplemented("<beamSpan>", "@startid and @endid")];
        return;
      }
      annotations := Put(annotations, RemoveOctothorpe(s.value), "m21Beam", Some("start"));
      annotations := Put(annotations, RemoveOctothorpe(t.value), "m21Beam", Some("stop"));
      ContinueIds(Split(Get(e, "plist").GetOr(""), ' '));
    }

    /** The @plist loop of `_ppBeams`: a member without a beam gets 'continue'. */
    method ContinueIds(ids: seq<string>)
      modifies this
      ensures annotations == ContinueBeams(old(annotations), ids)
      ensures nextLabel == old(nextLabel) && warnings == old(warnings)
    {
      var i := 0;
      while i < |ids|
        invariant 0 <= i <= |ids|
        invariant annotations == ContinueBeams(old(annotations), ids[..i])
        invariant nextLabel == old(nextLabel) && warnings == old(warnings)
      {
        ContinueBeamsStep(old(annotations), ids, i);
        var id := RemoveOctothorpe(ids[i]);
        if "m21Beam" !in NotesOf(annotations, id) {
          annotations := Put(annotations, id, "m21Beam", Some("continue"));
        }
        i := i + 1;
      }
      assert ids[..|ids|] == ids;
    }

    /** `_ppTuplets` on one <tupletSpan>, with its loop over the @plist. */
    method TupletOne(e: Element)
      modifies this
      ensures State() == TupletStep(old(State()), e)
    {
      var s, t, plist := Get(e, "startid"), Get(e, "endid"), Get(e, "plist");
      var num, numbase := Get(e, "num"), Get(e, "numbase");
      if (s.None? || t.None?) && plist.None? {
        warnings := warnings + [Unimplemented("<tupletSpan>", "@startid and @endid or @plist")];
      } else if plist.Some? {
        TupletIds(Split(plist.value, ' '), num, numbase);
      } else {
        MarkSearch(RemoveOctothorpe(s.value), "start", num, numbase);
        MarkSearch(RemoveOctothorpe(t.value), "end", num, numbase);
      }
    }

    /** The @plist loop of `_ppTuplets`: every non-empty member records @num and @numbase. */
    method TupletIds(ids: seq<string>, num: Option<string>, numbase: Option<string>)
      modifies this
      ensures annotations == TupletMembers(old(annotations), ids, num, numbase)
      ensures nextLabel == old(nextLabel) && warnings == old(warnings)
    {
      var i := 0;
      while i < |ids|
        invariant 0 <= i <= |ids|
        invariant annotations == TupletMembers(old(annotations), ids[..i], num, numbase)
        invariant nextLabel == old(nextLabel) && warnings == old(warnings)
      {
        TupletMembersStep(old(annotations), ids, i, num, numbase);
        var id := RemoveOctothorpe(ids[i]);
        if 0 < |id| {
          annotations := PutCounts(annotations, id, num, numbase);
        }
        i := i + 1;
      }
      assert ids[..|ids|] == ids;
    }

    /** One end of a <tupletSpan> without @plist: its search role and both counts. */
    method MarkSearch(id: string, role: string, num: Option<string>, numbase: Option<string>)
      modifies this
      ensures annotations == SearchMarks(old(annotations), id, role, num, numbase)
      ensures nextLabel == old(nextLabel) && warnings == old(warnings)
    {
      annotations := PutCounts(Put(annotations, id, "m21TupletSearch", Some(role)), id, num, numbase);
    }

    /** `_ppSlurs`: the <slur> elements in document order. */
    method PpSlurs(es: seq<Element>)
      modifies this, bundle
      ensures State() == Steps(SlurElems, old(State()), es)
    {
      var i := 0;
      while i < |es|
        invariant 0 <= i <= |es|
        invariant State() == Steps(SlurElems, old(State()), es[..i])
      {
        assert es[..i + 1][..i] == es[..i];
        SlurOne(es[i]);
        i := i + 1;
      }
      assert es[..|es|] == es;
    }

    /** `_ppTies`: the <tie> elements in document order. */
    method PpTies(es: seq<Element>)
      modifies this
      ensures State() == Steps(TieElems, old(State()), es)
    {
      var i := 0;
      while i < |es|
        invariant 0 <= i <= |es|
        invariant State() == Steps(TieElems, old(State()), es[..i])
      {
        assert es[..i + 1][..i] == es[..i];
        TieOne(es[i]);
        i := i + 1;
      }
      assert es[..|es|] == es;
    }

    /** `_ppBeams`: the <beamSpan> elements in document order. */
    method PpBeams(es: seq<Element>)
      modifies this
      ensures State() == Steps(BeamSpanElems, old(State()), es)
    {
      var i := 0;
      while i < |es|
        invariant 0 <= i <= |es|
        invariant State() == Steps(BeamSpanElems, old(State()), es[..i])
      {
        assert es[..i + 1][..i] == es[..i];
        BeamOne(es[i]);
        i := i + 1;
      }
      assert es[..|es|] == es;
    }

    /** `_ppTuplets`: the <tupletSpan> elements in document order. */
    method PpTuplets(es: seq<Element>)
      modifies this
      ensures State() == Steps(TupletSpanElems, old(State()), es)
    {
      var i := 0;
      while i < |es|
        invariant 0 <= i <= |es|
        invariant State() == Steps(TupletSpanElems, old(State()), es[..i])
      {
        assert es[..i + 1][..i] == es[..i];
        TupletOne(es[i]);
        i := i + 1;
      }
      assert es[..|es|] == es;
    }

    /** `_ppConclude` on one element, with its loop over the recorded attributes. */
    method ConcludeOne(e: Element) returns (r: Result<Element>)
      ensures r == ConcludeElem(annotations, e)
    {
      var id := Get(e, XmlId);
      if id.None? || id.value !in annotations {
        return Ok(e);
      }
      var notes := annotations[id.value];
      if exists k :: k in notes && notes[k].None? {
        return Err(PyError(TypeError));
      }
      var x := e;
      var todo := notes.Keys;
      while todo != {}
        invariant todo <= notes.Keys
        invariant x.Keys == e.Keys + (notes.Keys - todo)
        invariant forall k :: k in x ==> x[k] == if k in notes && k !in todo then Get(e, k).GetOr("") + notes[k].value else e[k]
        decreases todo
      {
        var k :| k in todo;
        x := x[k := Get(x, k).GetOr("") + notes[k].value];
        todo := todo - {k};
      }
      ConcludeElemIs(annotations, e, x);
      r := Ok(x);
    }

    /** One element of `_ppConclude`, written back into the document when it succeeds. */
    method ConcludeAt(doc: array<Element>, i: nat) returns (err: Option<Error>)
      requires i < doc.Length
      modifies doc
      ensures ConcludeElem(annotations, old(doc[i])).Err? ==>
        err == Some(ConcludeElem(annotations, old(doc[i])).error) && doc[..] == old(doc[..])
      ensures ConcludeElem(annotations, old(doc[i])).Ok? ==>
        err.None? && doc[..] == old(doc[..])[i := ConcludeElem(annotations, old(doc[i])).value]
    {
      var c := ConcludeOne(doc[i]);
      if c.Err? {
        err := Some(c.error);
      } else {
        doc[i] := c.value;
        err := None;
      }
    }

    /** `_ppConclude`: writes the recorded attributes into the document's elements, in order. */
    method PpConclude(doc: array<Element>) returns (r: Result<()>)
      modifies doc
      ensures doc[..] == ConcludeAll(annotations, old(doc[..])).elems
      ensures r == if ConcludeAll(annotations, old(doc[..])).error.Some? then Err(ConcludeAll(annotations, old(doc[..])).error.value) else Ok(())
    {
      ghost var es := doc[..];
      var i := 0;
      var err: Option<Error> := None;
      while i < doc.Length && err.None?
        invariant 0 <= i <= doc.Length
        invariant ConcludeAll(annotations, es[..i]) == Concluded(doc[..i], err)
        invariant doc[i..] == es[i..]
      {
        ghost var before := doc[..];
        err := ConcludeAt(doc, i);
        ConcludeAdvance(annotations, es, before, doc[..], i, err);
        i := i + 1;
      }
      if err.Some? {
        ConcludeAfterError(annotations, es, i);
      } else {
        assert es[..i] == es;
      }
      assert doc[..] == doc[..i] + doc[i..];
      r := if err.None? then Ok(()) else Err(err.value);
    }

    /**
     * The preprocessing at the start of `run`: the four passes over the spanning elements,
     * then `_ppConclude` over the document's elements. From a new converter it leaves every
     * slur reference resolvable in the registry.
     */
    method Preprocess(slurs: seq<Element>, ties: seq<Element>, beams: seq<Element>, tuplets: seq<Element>, doc: array<Element>)
      returns (r: Result<()>)
      modifies this, bundle, doc
      ensures State() == AllPasses(old(State()), slurs, ties, beams, tuplets)
      ensures doc[..] == ConcludeAll(annotations, old(doc[..])).elems
      ensures r == if ConcludeAll(annotations, old(doc[..])).error.Some? then Err(ConcludeAll(annotations, old(doc[..])).error.value) else Ok(())
      ensures old(State()) == Pre(map[], [], 0, []) ==> Valid(State())
    {
      PpSlurs(slurs);
      PpTies(ties);
      PpBeams(beams);
      PpTuplets(tuplets);
      r := PpConclude(doc);
      if old(State()) == Pre(map[], [], 0, []) {
        AllPassesValid(slurs, ties, beams, tuplets);
      }
    }
  }
}
