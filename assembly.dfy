/**
 * Structural assembly: the part list, the conversion of <layer>, <staff> and <measure> into
 * voices and measures, and the carry-over loop of `MeiToM21Converter.run` over the
 * score-level items of a document whose spanning elements are already preprocessed.
 */
module Assembly {
  import opened Wrappers
  import opened Strings
  import opened Decoders
  import opened Engine
  import opened Spanners

  const SeeminglyNoParts := "There appear to be no <staffDef> tags in this score."
  const MissingVoiceId := "Found a <layer> without @n attribute and no override."
  const VoiceCountMessage := "getVoiceId: found too few or too many Voice objects"

  // ---------------------------------------------------------------- allPartsPresent

  /** The @n values of the staffDefs, each kept at its first appearance. */
  function Dedup(ns: seq<Option<string>>): (r: seq<Option<string>>)
    ensures |r| <= |ns|
  {
    if |ns| == 0 then []
    else
      var d := Dedup(ns[..|ns| - 1]);
      if ns[|ns| - 1] in d then d else d + [ns[|ns| - 1]]
  }

  /** The position of the first occurrence of `x`. */
  function IndexOf(ns: seq<Option<string>>, x: Option<string>): (i: nat)
    requires x in ns
    ensures i < |ns| && ns[i] == x && x !in ns[..i]
  {
    if ns[0] == x then 0
    else
      assert ns == [ns[0]] + ns[1..];
      var j := IndexOf(ns[1..], x);
      assert ns[..j + 1] == [ns[0]] + ns[1..][..j];
      j + 1
  }

  predicate Distinct(ns: seq<Option<string>>) {
    forall i, j :: 0 <= i < j < |ns| ==> ns[i] != ns[j]
  }

  lemma {:induction false} IndexOfPrefix(ns: seq<Option<string>>, x: Option<string>, k: nat)
    requires k <= |ns| && x in ns[..k]
    ensures x in ns && IndexOf(ns, x) == IndexOf(ns[..k], x)
  {
    var i := IndexOf(ns[..k], x);
    var j := IndexOf(ns, x);
    assert ns[..k][..i] == ns[..i];
  }

  /**
   * The part list holds exactly the staffDef @n values, each once, ordered by the position
   * of its first staffDef; it is empty only when there are no staffDefs.
   */
  lemma {:induction false} DedupMeaning(ns: seq<Option<string>>)
    ensures forall x :: x in Dedup(ns) <==> x in ns
    ensures Distinct(Dedup(ns))
    ensures forall i, j :: 0 <= i < j < |Dedup(ns)| ==> IndexOf(ns, Dedup(ns)[i]) < IndexOf(ns, Dedup(ns)[j])
    ensures Dedup(ns) == [] <==> ns == []
    decreases |ns|
  {
    if |ns| > 0 {
      var p := ns[..|ns| - 1];
      var x := ns[|ns| - 1];
      DedupMeaning(p);
      var d := Dedup(p);
      assert ns == p + [x];
      forall y | y in p
        ensures IndexOf(ns, y) == IndexOf(p, y)
      {
        IndexOfPrefix(ns, y, |ns| - 1);
      }
      if x !in d {
        assert x !in p;
        assert x in ns;
        var ix := IndexOf(ns, x);
        assert ix == |ns| - 1;
        var r := Dedup(ns);
        assert r == d + [x];
        forall i, j | 0 <= i < j < |r|
          ensures IndexOf(ns, r[i]) < IndexOf(ns, r[j])
        {
          assert r[i] == d[i];
          assert r[i] in p;
          if j < |d| {
            assert r[j] == d[j];
          }
        }
      }
    }
  }

  lemma AllPartsExample()
    ensures Dedup([Some("1"), Some("2"), Some("2")]) == [Some("1"), Some("2")]
  {
    assert [Some("1"), Some("2"), Some("2")][..2] == [Some("1"), Some("2")];
    assert [Some("1"), Some("2")][..1] == [Some("1")];
    assert [Some("1")][..0] == [];
  }

  /** `allPartsPresent`: the de-duplicated staffDef @n values, or an error when there are none. */
  method AllPartsPresent(staffDefNs: seq<Option<string>>) returns (r: Result<seq<Option<string>>>)
    ensures staffDefNs == [] ==> r == Err(MeiValidityError(SeeminglyNoParts))
    ensures staffDefNs != [] ==> r == Ok(Dedup(staffDefNs))
  {
    var partNs: seq<Option<string>> := [];
    var i := 0;
    while i < |staffDefNs|
      invariant 0 <= i <= |staffDefNs|
      invariant partNs == Dedup(staffDefNs[..i])
    {
      assert staffDefNs[..i + 1][..i] == staffDefNs[..i];
      if staffDefNs[i] !in partNs {
        partNs := partNs + [staffDefNs[i]];
      }
      i := i + 1;
    }
    assert staffDefNs[..i] == staffDefNs;
    DedupMeaning(staffDefNs);
    if |partNs| == 0 {
      return Err(MeiValidityError(SeeminglyNoParts));
    }
    r := Ok(partNs);
  }

  // ---------------------------------------------------------------- layers

  /** A music21 Voice: its id, its objects, and a duration set explicitly (None: derived from the objects). */
  datatype Voice = Voice(id: string, events: seq<Event>, fixedLength: Option<real>)

  /** An object of a converted <staff>: a clef hoisted out of its voice, or a voice. */
  datatype StaffItem = HoistedClef(clef: Event) | VoiceItem(voice: Voice)

  /**
   * `layerFromElement` given the converted children of the <layer>: the tuplets are guessed,
   * then the id is the override when it is a non-empty string, else @n, else an error.
   */
  function LayerSpec(objs: seq<Event>, overrideN: Option<string>, n: Option<string>): (r: Result<Voice>)
    ensures GuessOutcome(objs).error.Some? ==> r == Err(GuessOutcome(objs).error.value)
    ensures GuessOutcome(objs).error.None? && (overrideN.None? || overrideN.value == "") && n.None? ==>
      r == Err(MeiAttributeError(MissingVoiceId))
    ensures r.Ok? ==> r.value.events == GuessOutcome(objs).events && r.value.fixedLength.None?
    ensures r.Ok? && overrideN.Some? && overrideN.value != "" ==> r.value.id == overrideN.value
    ensures r.Ok? && (overrideN.None? || overrideN.value == "") ==> n.Some? && r.value.id == n.value
  {
    var g := GuessOutcome(objs);
    if g.error.Some? then Err(g.error.value)
    else if overrideN.Some? && overrideN.value != "" then Ok(Voice(overrideN.value, g.events, None))
    else if n.Some? then Ok(Voice(n.value, g.events, None))
    else Err(MeiAttributeError(MissingVoiceId))
  }

  /** A layer without 'start' search marks keeps its objects exactly. */
  lemma LayerWithoutTuplets(objs: seq<Event>, overrideN: Option<string>, n: Option<string>)
    requires forall m :: 0 <= m < |objs| && HasDuration(objs[m].kind) ==> !IsSearch(objs[m], "start")
    requires n.Some?
    ensures LayerSpec(objs, overrideN, n).Ok? && LayerSpec(objs, overrideN, n).value.events == objs
  {
    GuessWithoutStart(objs);
  }

  /** `layerFromElement`: the children are collected into a list and scanned in place. */
  method LayerFromElement(objs: seq<Event>, overrideN: Option<string>, n: Option<string>) returns (r: Result<Voice>)
    ensures r == LayerSpec(objs, overrideN, n)
  {
    var theLayer := new Event[|objs|](i requires 0 <= i < |objs| => objs[i]);
    assert theLayer[..] == objs;
    var guessed := GuessTuplets(theLayer);
    if guessed.Err? {
      return Err(guessed.error);
    }
    var events := theLayer[..];
    if overrideN.Some? && overrideN.value != "" {
      r := Ok(Voice(overrideN.value, events, None));
    } else if n.Some? {
      r := Ok(Voice(n.value, events, None));
    } else {
      r := Err(MeiAttributeError(MissingVoiceId));
    }
  }

  // ---------------------------------------------------------------- staves

  /** A child of a <staff>: a <layer> with its converted children and @n, or anything else. */
  datatype StaffChild = LayerChild(objs: seq<Event>, n: Option<string>) | OtherStaffChild

  /** The clefs of a voice, in order, as hoisted staff items. */
  function ClefsOf(events: seq<Event>): (r: seq<StaffItem>)
    ensures |r| <= |events|
    ensures forall k :: 0 <= k < |r| ==> r[k].HoistedClef? && r[k].clef.kind == Clef
  {
    if |events| == 0 then []
    else
      var e := events[|events| - 1];
      ClefsOf(events[..|events| - 1]) + if e.kind == Clef then [HoistedClef(e)] else []
  }

  /** The objects of a voice that are not clefs, in order. */
  function NonClefs(events: seq<Event>): (r: seq<Event>)
    ensures |r| <= |events|
    ensures forall k :: 0 <= k < |r| ==> r[k].kind != Clef
  {
    if |events| == 0 then []
    else
      var e := events[|events| - 1];
      NonClefs(events[..|events| - 1]) + if e.kind == Clef then [] else [e]
  }

  /** Every object of the voice is kept: as a hoisted clef or inside the voice. */
  lemma {:induction false} HoistCounts(events: seq<Event>)
    ensures |ClefsOf(events)| + |NonClefs(events)| == |events|
    decreases |events|
  {
    if |events| > 0 {
      HoistCounts(events[..|events| - 1]);
    }
  }

  /** What a converted layer adds to the staff: its clefs, then the voice without them. */
  function Hoist(v: Voice): seq<StaffItem> {
    ClefsOf(v.events) + [VoiceItem(v.(events := NonClefs(v.events)))]
  }

  function LayerCount(cs: seq<StaffChild>): nat {
    if |cs| == 0 then 0
    else LayerCount(cs[..|cs| - 1]) + if cs[|cs| - 1].LayerChild? then 1 else 0
  }

  /** `staffFromElement`: the k-th <layer> is converted with the override str(k), counting from one. */
  function StaffSpec(cs: seq<StaffChild>): (r: Result<seq<StaffItem>>)
  {
    if |cs| == 0 then Ok([])
    else
      var prior :- StaffSpec(cs[..|cs| - 1]);
      match cs[|cs| - 1]
      case OtherStaffChild => Ok(prior)
      case LayerChild(objs, n) =>
        var v :- LayerSpec(objs, Some(NatToString(LayerCount(cs[..|cs| - 1]) + 1)), n);
        Ok(prior + Hoist(v))
  }

  /** The voices among the staff items, in order. */
  function VoicesOf(items: seq<StaffItem>): (r: seq<Voice>)
    ensures |r| <= |items|
  {
    if |items| == 0 then []
    else VoicesOf(items[..|items| - 1]) + if items[|items| - 1].VoiceItem? then [items[|items| - 1].voice] else []
  }

  lemma {:induction false} VoicesOfAppend(a: seq<StaffItem>, b: seq<StaffItem>)
    ensures VoicesOf(a + b) == VoicesOf(a) + VoicesOf(b)
    decreases |b|
  {
    if |b| == 0 {
      assert a + b == a;
    } else {
      VoicesOfAppend(a, b[..|b| - 1]);
      assert (a + b)[..|a + b| - 1] == a + b[..|b| - 1];
    }
  }

  lemma {:induction false} VoicesOfClefs(events: seq<Event>)
    ensures VoicesOf(ClefsOf(events)) == []
    decreases |events|
  {
    if |events| > 0 {
      var e := events[|events| - 1];
      VoicesOfClefs(events[..|events| - 1]);
      VoicesOfAppend(ClefsOf(events[..|events| - 1]), if e.kind == Clef then [HoistedClef(e)] else []);
      if e.kind == Clef {
        assert VoicesOf([HoistedClef(e)]) == VoicesOf([HoistedClef(e)][..0]);
      }
    }
  }

  lemma VoicesOfHoist(v: Voice)
    ensures VoicesOf(Hoist(v)) == [v.(events := NonClefs(v.events))]
  {
    VoicesOfAppend(ClefsOf(v.events), [VoiceItem(v.(events := NonClefs(v.events)))]);
    VoicesOfClefs(v.events);
    assert [VoiceItem(v.(events := NonClefs(v.events)))][..0] == [];
  }

  /**
   * A converted staff has one voice per <layer>; the k-th voice (from zero) has id str(k+1),
   * so the ids are distinct; no voice keeps a clef; and every other item is a hoisted clef.
   */
  lemma {:induction false} StaffSpecMeaning(cs: seq<StaffChild>)
    requires StaffSpec(cs).Ok?
    ensures var vs := VoicesOf(StaffSpec(cs).value);
      && |vs| == LayerCount(cs)
      && (forall k :: 0 <= k < |vs| ==> vs[k].id == NatToString(k + 1))
      && (forall k, m :: 0 <= k < |vs| && 0 <= m < |vs[k].events| ==> vs[k].events[m].kind != Clef)
    ensures forall i :: 0 <= i < |StaffSpec(cs).value| && !StaffSpec(cs).value[i].VoiceItem? ==>
      StaffSpec(cs).value[i].clef.kind == Clef
    decreases |cs|
  {
    if |cs| > 0 {
      var p := cs[..|cs| - 1];
      StaffSpecMeaning(p);
      var prior := StaffSpec(p).value;
      match cs[|cs| - 1]
      case OtherStaffChild =>
      case LayerChild(objs, n) =>
        var v := LayerSpec(objs, Some(NatToString(LayerCount(p) + 1)), n).value;
        assert StaffSpec(cs).value == prior + Hoist(v);
        VoicesOfAppend(prior, Hoist(v));
        VoicesOfHoist(v);
        var items := StaffSpec(cs).value;
        forall i | 0 <= i < |items| && !items[i].VoiceItem?
          ensures items[i].clef.kind == Clef
        {
          if i >= |prior| {
            var h := Hoist(v);
            assert items[i] == h[i - |prior|];
            if i - |prior| < |ClefsOf(v.events)| {
              assert h[i - |prior|] == ClefsOf(v.events)[i - |prior|];
            }
          } else {
            assert items[i] == prior[i];
          }
        }
    }
  }

  /** The voice ids of a converted staff are pairwise distinct. */
  lemma StaffVoiceIdsDistinct(cs: seq<StaffChild>, k: nat, m: nat)
    requires StaffSpec(cs).Ok?
    requires k < m < |VoicesOf(StaffSpec(cs).value)|
    ensures VoicesOf(StaffSpec(cs).value)[k].id != VoicesOf(StaffSpec(cs).value)[m].id
  {
    StaffSpecMeaning(cs);
    if NatToString(k + 1) == NatToString(m + 1) {
      NatToStringInjective(k + 1, m + 1);
    }
  }

  /** The inner loop of `staffFromElement`: hoist the clefs out of a converted layer. */
  method HoistClefs(v: Voice) returns (items: seq<StaffItem>)
    ensures items == Hoist(v)
  {
    var clefs: seq<StaffItem> := [];
    var kept: seq<Event> := [];
    var i := 0;
    while i < |v.events|
      invariant 0 <= i <= |v.events|
      invariant clefs == ClefsOf(v.events[..i]) && kept == NonClefs(v.events[..i])
    {
      assert v.events[..i + 1][..i] == v.events[..i];
      if v.events[i].kind == Clef {
        clefs := clefs + [HoistedClef(v.events[i])];
      } else {
        kept := kept + [v.events[i]];
      }
      i := i + 1;
    }
    assert v.events[..i] == v.events;
    items := clefs + [VoiceItem(v.(events := kept))];
  }

  /** `staffFromElement`, with the @n counter kept as a string as the source keeps it. */
  method StaffFromElement(cs: seq<StaffChild>) returns (r: Result<seq<StaffItem>>)
    ensures r == StaffSpec(cs)
  {
    var layers: seq<StaffItem> := [];
    var currentNValue := "1";
    var i := 0;
    while i < |cs|
      invariant 0 <= i <= |cs|
      invariant StaffSpec(cs[..i]) == Ok(layers)
      invariant currentNValue == NatToString(LayerCount(cs[..i]) + 1)
    {
      assert cs[..i + 1][..i] == cs[..i];
      if cs[i].LayerChild? {
        var thisLayer := LayerFromElement(cs[i].objs, Some(currentNValue), cs[i].n);
        if thisLayer.Err? {
          assert StaffSpec(cs[..i + 1]) == Err(thisLayer.error);
          StaffAfterError(cs, i + 1);
          assert cs[..|cs|] == cs;
          return Err(thisLayer.error);
        }
        var hoisted := HoistClefs(thisLayer.value);
        layers := layers + hoisted;
        ParseNatToString(LayerCount(cs[..i]) + 1);
        currentNValue := NatToString(ParseNat(currentNValue).value + 1);
      }
      i := i + 1;
    }
    assert cs[..i] == cs;
    r := Ok(layers);
  }

  /** Once a layer fails, the staff fails with that error. */
  lemma {:induction false} StaffAfterError(cs: seq<StaffChild>, k: nat)
    requires 0 < k <= |cs| && StaffSpec(cs[..k]).Err?
    ensures StaffSpec(cs) == StaffSpec(cs[..k])
    decreases |cs| - k
  {
    if k < |cs| {
      assert cs[..k + 1][..k] == cs[..k];
      StaffAfterError(cs, k + 1);
    } else {
      assert cs[..k] == cs;
    }
  }

  // ---------------------------------------------------------------- getVoiceId

  /** `getVoiceId`: the id of the only voice among the objects. */
  function GetVoiceId(items: seq<StaffItem>): (r: Result<string>)
    ensures r.Ok? <==> |VoicesOf(items)| == 1
    ensures r.Ok? ==> r.value == VoicesOf(items)[0].id
    ensures r.Err? ==> r.error == RuntimeError(VoiceCountMessage)
  {
    var voices := VoicesOf(items);
    if |voices| == 1 then Ok(voices[0].id) else Err(RuntimeError(VoiceCountMessage))
  }

  /** A staff with exactly one <layer> has voice id "1"; one with two layers has no single voice. */
  lemma GetVoiceIdOfStaff(cs: seq<StaffChild>)
    requires StaffSpec(cs).Ok?
    ensures LayerCount(cs) == 1 ==> GetVoiceId(StaffSpec(cs).value) == Ok("1")
    ensures LayerCount(cs) != 1 ==> GetVoiceId(StaffSpec(cs).value) == Err(RuntimeError(VoiceCountMessage))
  {
    StaffSpecMeaning(cs);
    assert NatToString(1) == "1";
  }

  // ---------------------------------------------------------------- measures

  /** A staff-level object from a <staffDef> or <scoreDef>; only a time signature's length matters here. */
  datatype Thing = TimeSignature(totalLength: real) | PartObject(name: string)

  /**
   * A music21 Measure. `fixedLength` is a duration set explicitly; `prefix` holds the objects
   * inserted at offset 0 by `run`, `padded` whether it was padded as an anacrusis.
   */
  datatype Measure = Measure(
    number: int, items: seq<StaffItem>, fixedLength: Option<real>,
    leftBarline: Option<Bar>, rightBarline: Option<Bar>, prefix: seq<Thing>, padded: bool)

  function NewMeasure(number: int, items: seq<StaffItem>): Measure {
    Measure(number, items, None, None, None, [], false)
  }

  /** The length of a voice whose duration is not fixed: its objects follow one another. */
  function EventsLength(es: seq<Event>): real {
    if |es| == 0 then 0.0 else EventsLength(es[..|es| - 1]) + es[|es| - 1].ql
  }

  function VoiceLength(v: Voice): real {
    if v.fixedLength.Some? then v.fixedLength.value else EventsLength(v.events)
  }

  /** The voices of a measure start together, so its length is that of the longest (0 without voices). */
  function ItemsLength(items: seq<StaffItem>): (r: real)
    ensures r >= 0.0
    ensures forall k :: 0 <= k < |items| && items[k].VoiceItem? ==> VoiceLength(items[k].voice) <= r
  {
    if |items| == 0 then 0.0
    else
      var prior := ItemsLength(items[..|items| - 1]);
      var last := items[|items| - 1];
      if last.VoiceItem? && prior < VoiceLength(last.voice) then VoiceLength(last.voice) else prior
  }

  function MeasureLength(m: Measure): real {
    if m.fixedLength.Some? then m.fixedLength.value else ItemsLength(m.items)
  }

  /** `int(elem.get('n', backupNum))`. */
  function MeasureNumber(n: Option<string>, backupNum: int): (r: Result<int>)
  {
    if n.Some? then PyInt(n) else Ok(backupNum)
  }

  // ------------------------------------------------ _correctMRestDurs

  predicate HasMRest(es: seq<Event>) {
    exists k :: 0 <= k < |es| && es[k].wasMRest
  }

  predicate ItemsHaveMRest(items: seq<StaffItem>) {
    exists k :: 0 <= k < |items| && items[k].VoiceItem? && HasMRest(items[k].voice.events)
  }

  function FixEvent(e: Event, target: real): Event {
    if e.wasMRest then e.(ql := target, wasMRest := false) else e
  }

  function FixEvents(es: seq<Event>, target: real): (r: seq<Event>)
    ensures |r| == |es|
  {
    seq(|es|, k requires 0 <= k < |es| => FixEvent(es[k], target))
  }

  /** A voice holding a measure rest: the rests get the target length, and so does the voice. */
  function CorrectVoice(v: Voice, target: real): Voice {
    if HasMRest(v.events) then v.(events := FixEvents(v.events, target), fixedLength := Some(target)) else v
  }

  function CorrectItem(item: StaffItem, target: real): StaffItem {
    match item
    case HoistedClef(_) => item
    case VoiceItem(v) => VoiceItem(CorrectVoice(v, target))
  }

  function CorrectItems(items: seq<StaffItem>, target: real): (r: seq<StaffItem>)
    ensures |r| == |items|
  {
    seq(|items|, k requires 0 <= k < |items| => CorrectItem(items[k], target))
  }

  function CorrectMeasure(m: Measure, target: real): Measure {
    m.(items := CorrectItems(m.items, target),
       fixedLength := if ItemsHaveMRest(m.items) then Some(target) else m.fixedLength)
  }

  function CorrectAll(staves: map<Option<string>, Measure>, target: real): (r: map<Option<string>, Measure>)
  {
    map k | k in staves :: CorrectMeasure(staves[k], target)
  }

  /**
   * After `_correctMRestDurs` no measure rest is left: each one now lasts the target, every
   * other object is unchanged, and a measure that held one lasts the target itself; the
   * number, the barlines and the voice ids are kept.
   */
  lemma CorrectMeasureMeaning(m: Measure, target: real)
    ensures var c := CorrectMeasure(m, target);
      && c.number == m.number && c.leftBarline == m.leftBarline && c.rightBarline == m.rightBarline
      && |c.items| == |m.items| && !ItemsHaveMRest(c.items)
      && (ItemsHaveMRest(m.items) ==> MeasureLength(c) == target)
      && (!ItemsHaveMRest(m.items) ==> c == m)
    ensures var c := CorrectMeasure(m, target);
      forall k :: 0 <= k < |m.items| ==>
        && c.items[k].VoiceItem? == m.items[k].VoiceItem?
        && (m.items[k].HoistedClef? ==> c.items[k] == m.items[k])
        && (m.items[k].VoiceItem? ==> c.items[k].voice.id == m.items[k].voice.id)
        && (m.items[k].VoiceItem? ==> |c.items[k].voice.events| == |m.items[k].voice.events|)
    ensures var c := CorrectMeasure(m, target);
      forall k, j :: 0 <= k < |m.items| && m.items[k].VoiceItem? && 0 <= j < |m.items[k].voice.events| ==>
        var e := m.items[k].voice.events[j];
        c.items[k].voice.events[j] == (if e.wasMRest then e.(ql := target, wasMRest := false) else e)
  {
    var c := CorrectMeasure(m, target);
    if !ItemsHaveMRest(m.items) {
      assert c.items == m.items by {
        forall k | 0 <= k < |m.items|
          ensures c.items[k] == m.items[k]
        {
          if m.items[k].VoiceItem? {
            assert !HasMRest(m.items[k].voice.events);
          }
        }
      }
    }
    forall k | 0 <= k < |c.items| && c.items[k].VoiceItem?
      ensures !HasMRest(c.items[k].voice.events)
    {
      var es := c.items[k].voice.events;
      forall j | 0 <= j < |es|
        ensures !es[j].wasMRest
      {
        if HasMRest(m.items[k].voice.events) {
          assert es[j] == FixEvent(m.items[k].voice.events[j], target);
        }
      }
    }
  }

  /** Correcting twice is correcting once. */
  lemma CorrectTwice(m: Measure, target: real)
    ensures CorrectMeasure(CorrectMeasure(m, target), target) == CorrectMeasure(m, target)
  {
    CorrectMeasureMeaning(m, target);
    CorrectMeasureMeaning(CorrectMeasure(m, target), target);
  }

  /** The innermost loop of `_correctMRestDurs`, over the objects of one voice. */
  method CorrectVoiceObjects(v: Voice, target: real) returns (r: Voice)
    ensures r == CorrectVoice(v, target)
  {
    var es := v.events;
    var fixed: seq<Event> := [];
    var found := false;
    var i := 0;
    while i < |es|
      invariant 0 <= i <= |es|
      invariant fixed == FixEvents(es[..i], target)
      invariant found <==> HasMRest(es[..i])
    {
      assert es[..i + 1][..i] == es[..i];
      assert es[..i + 1][i] == es[i];
      if es[i].wasMRest {
        fixed := fixed + [es[i].(ql := target, wasMRest := false)];
        found := true;
      } else {
        fixed := fixed + [es[i]];
      }
      i := i + 1;
    }
    assert es[..i] == es;
    r := if found then v.(events := fixed, fixedLength := Some(target)) else v;
  }

  /** The middle loop of `_correctMRestDurs`, over the objects of one measure; non-voices are skipped. */
  method CorrectMeasureObjects(m: Measure, target: real) returns (r: Measure)
    ensures r == CorrectMeasure(m, target)
  {
    var items: seq<StaffItem> := [];
    var found := false;
    var i := 0;
    while i < |m.items|
      invariant 0 <= i <= |m.items|
      invariant items == CorrectItems(m.items[..i], target)
      invariant found <==> ItemsHaveMRest(m.items[..i])
    {
      assert m.items[..i + 1][..i] == m.items[..i];
      assert m.items[..i + 1][i] == m.items[i];
      var item := m.items[i];
      if item.VoiceItem? {
        var v := CorrectVoiceObjects(item.voice, target);
        items := items + [VoiceItem(v)];
        if HasMRest(item.voice.events) {
          found := true;
        }
      } else {
        items := items + [item];
      }
      i := i + 1;
    }
    assert m.items[..i] == m.items;
    r := m.(items := items, fixedLength := if found then Some(target) else m.fixedLength);
  }

  /** `_correctMRestDurs(staves, targetLength)`: every measure of the dictionary is corrected. */
  method CorrectMRestDurs(staves: map<Option<string>, Measure>, target: real) returns (r: map<Option<string>, Measure>)
    ensures r == CorrectAll(staves, target)
  {
    r := map[];
    var todo := staves.Keys;
    while todo != {}
      invariant todo <= staves.Keys
      invariant r.Keys == staves.Keys - todo
      invariant forall k :: k in r ==> r[k] == CorrectMeasure(staves[k], target)
      decreases |todo|
    {
      var k :| k in todo;
      var c := CorrectMeasureObjects(staves[k], target);
      r := r[k := c];
      todo := todo - {k};
    }
  }

  // ------------------------------------------------ measureFromElement

  /** A child of a <measure>: a <staff> with its @n and children, or anything else. */
  datatype MeasureChild = StaffElem(n: Option<string>, children: seq<StaffChild>) | OtherMeasureChild

  /** A <measure>: its @n, @left and @right, and its children. */
  datatype MeasureElem = MeasureElem(n: Option<string>, left: Option<string>, right: Option<string>, children: seq<MeasureChild>)

  /** The staves converted so far and the longest of their lengths (None before the first). */
  datatype Staves = Staves(staves: map<Option<string>, Measure>, maxBar: Option<real>)

  function Longer(maxBar: Option<real>, len: real): (r: Option<real>)
    ensures r.Some? && len <= r.value
    ensures maxBar.Some? ==> maxBar.value <= r.value
    ensures r == Some(len) || r == maxBar
  {
    if maxBar.None? || maxBar.value < len then Some(len) else maxBar
  }

  /** The loop of `measureFromElement` over the children: each <staff> is converted and measured. */
  function StavesSpec(n: Option<string>, backupNum: int, cs: seq<MeasureChild>): (r: Result<Staves>)
  {
    if |cs| == 0 then Ok(Staves(map[], None))
    else
      var prior :- StavesSpec(n, backupNum, cs[..|cs| - 1]);
      match cs[|cs| - 1]
      case OtherMeasureChild => Ok(prior)
      case StaffElem(sn, scs) =>
        var items :- StaffSpec(scs);
        var number :- MeasureNumber(n, backupNum);
        Ok(Staves(prior.staves[sn := NewMeasure(number, items)], Longer(prior.maxBar, ItemsLength(items))))
  }

  /** The @n of the <staff> children. */
  function StaffNs(cs: seq<MeasureChild>): set<Option<string>> {
    set i | 0 <= i < |cs| && cs[i].StaffElem? :: cs[i].n
  }

  /**
   * The staves are keyed by the @n of the <staff> children, each a fresh measure numbered by
   * @n of the measure (or the backup number); a longest length exists exactly when there is
   * a <staff>.
   */
  lemma {:induction false} StavesKeys(n: Option<string>, backupNum: int, cs: seq<MeasureChild>)
    requires StavesSpec(n, backupNum, cs).Ok?
    ensures var st := StavesSpec(n, backupNum, cs).value;
      && st.staves.Keys == StaffNs(cs)
      && (forall k :: k in st.staves ==> MeasureNumber(n, backupNum) == Ok(st.staves[k].number))
      && (forall k :: k in st.staves ==> st.staves[k] == NewMeasure(st.staves[k].number, st.staves[k].items))
      && (st.maxBar.None? <==> StaffNs(cs) == {})
    decreases |cs|
  {
    if |cs| > 0 {
      var p := cs[..|cs| - 1];
      StavesKeys(n, backupNum, p);
      assert forall i :: 0 <= i < |p| ==> cs[i] == p[i];
      assert StaffNs(cs) == StaffNs(p) + (if cs[|cs| - 1].StaffElem? then {cs[|cs| - 1].n} else {});
    }
  }

  /** Every <staff> converts, and none is longer than the measure's longest length. */
  lemma {:induction false} StavesMaxBound(n: Option<string>, backupNum: int, cs: seq<MeasureChild>, i: nat)
    requires StavesSpec(n, backupNum, cs).Ok?
    requires i < |cs| && cs[i].StaffElem?
    ensures StavesSpec(n, backupNum, cs).value.maxBar.Some?
    ensures StaffSpec(cs[i].children).Ok?
    ensures ItemsLength(StaffSpec(cs[i].children).value) <= StavesSpec(n, backupNum, cs).value.maxBar.value
    decreases |cs|
  {
    var p := cs[..|cs| - 1];
    if i < |cs| - 1 {
      assert cs[i] == p[i];
      StavesMaxBound(n, backupNum, p, i);
    }
  }

  /** The longest length is that of one of the <staff> children. */
  lemma {:induction false} StavesMaxAttained(n: Option<string>, backupNum: int, cs: seq<MeasureChild>)
    requires StavesSpec(n, backupNum, cs).Ok? && StavesSpec(n, backupNum, cs).value.maxBar.Some?
    ensures exists i :: (0 <= i < |cs| && cs[i].StaffElem? && StaffSpec(cs[i].children).Ok?
      && ItemsLength(StaffSpec(cs[i].children).value) == StavesSpec(n, backupNum, cs).value.maxBar.value)
    decreases |cs|
  {
    var p := cs[..|cs| - 1];
    var prior := StavesSpec(n, backupNum, p).value;
    var st := StavesSpec(n, backupNum, cs).value;
    var last := cs[|cs| - 1];
    if last.StaffElem? && st.maxBar == Some(ItemsLength(StaffSpec(last.children).value)) {
      assert cs[|cs| - 1].StaffElem?;
    } else {
      assert prior.maxBar == st.maxBar;
      StavesMaxAttained(n, backupNum, p);
      var i :| 0 <= i < |p| && p[i].StaffElem? && StaffSpec(p[i].children).Ok?
        && ItemsLength(StaffSpec(p[i].children).value) == prior.maxBar.value;
      assert cs[i] == p[i];
    }
  }

  /** The measure synthesized for an expected staff without a <staff>: one voice "1" with one rest. */
  function RestMeasure(number: int, maxBar: Option<real>): Measure {
    NewMeasure(number, [VoiceItem(Voice("1", [Event(Rest, 0, maxBar.GetOr(0.0), [], [], None, false)], None))])
  }

  /** The second loop of `measureFromElement`: a rest-filled measure for every missing expected staff. */
  function FillMissing(n: Option<string>, backupNum: int, staves: map<Option<string>, Measure>, maxBar: Option<real>,
                       ns: seq<Option<string>>): (r: Result<map<Option<string>, Measure>>)
    ensures r.Ok? ==> r.value.Keys == staves.Keys + (set x | x in ns)
    ensures r.Ok? ==> forall x :: x in staves ==> r.value[x] == staves[x]
    ensures r.Ok? ==> forall x :: x in r.value && x !in staves ==>
      MeasureNumber(n, backupNum).Ok? && r.value[x] == RestMeasure(MeasureNumber(n, backupNum).value, maxBar)
    ensures (forall x :: x in ns ==> x in staves) ==> r == Ok(staves)
    ensures r.Err? ==> MeasureNumber(n, backupNum).Err? && r == Err(MeasureNumber(n, backupNum).error)
    ensures r.Err? ==> exists x :: x in ns && x !in staves
  {
    if |ns| == 0 then Ok(staves)
    else
      var prior :- FillMissing(n, backupNum, staves, maxBar, ns[..|ns| - 1]);
      var x := ns[|ns| - 1];
      assert forall y :: y in ns[..|ns| - 1] ==> y in ns;
      assert ns == ns[..|ns| - 1] + [x];
      if x in prior then Ok(prior)
      else
        var number :- MeasureNumber(n, backupNum);
        Ok(prior[x := RestMeasure(number, maxBar)])
  }

  /**
   * The length full-measure rests get: the meter's when every staff is as long as a rest
   * without @dur and the meter says otherwise, else the longest staff.
   */
  function TargetLength(maxBar: Option<real>, activeMeter: Option<real>): (r: Option<real>)
    ensures r == maxBar || (r == activeMeter && maxBar == Some(AbsentDurLength))
    ensures maxBar == Some(AbsentDurLength) && activeMeter.Some? ==> r == activeMeter
  {
    if maxBar == Some(DurTable[None]) && activeMeter.Some? && maxBar.value != activeMeter.value then activeMeter
    else maxBar
  }

  /** The barline to use from a decoded @left or @right: the second or the first of a 'rptboth' pair. */
  function SetRight(staves: map<Option<string>, Measure>, bar: Bar): (r: map<Option<string>, Measure>)
    ensures r.Keys == staves.Keys
    ensures forall k :: k in r ==> r[k] == staves[k].(rightBarline := Some(bar))
  {
    map k | k in staves :: staves[k].(rightBarline := Some(bar))
  }

  /** The barline step of `measureFromElement`; the second component is the 'next @left' entry. */
  function Barlines(left: Option<string>, right: Option<string>, staves: map<Option<string>, Measure>):
    (r: Result<(map<Option<string>, Measure>, Option<Bar>)>)
    ensures r.Ok? ==> r.value.0.Keys == staves.Keys
  {
    var afterLeft :-
      if left.None? then Ok(staves)
      else
        var b :- BarlineFromAttr(left.value);
        Ok(SetRight(staves, if b.BarPair? then b.second else b.bar));
    if right.None? then Ok((afterLeft, None))
    else
      var b :- BarlineFromAttr(right.value);
      if b.BarPair? then Ok((SetRight(afterLeft, b.first), Some(b.second)))
      else Ok((SetRight(afterLeft, b.bar), None))
  }

  /** The dictionary `measureFromElement` returns: the measures by staff @n and the 'next @left' entry. */
  datatype MeasureResult = MeasureResult(staves: map<Option<string>, Measure>, nextLeft: Option<Bar>)

  /** The measures of `measureFromElement` before the barlines are assigned. */
  function Corrected(elem: MeasureElem, backupNum: int, expectedNs: seq<Option<string>>, activeMeter: Option<real>):
    (r: Result<map<Option<string>, Measure>>)
    ensures r.Ok? ==> forall x :: x in expectedNs ==> x in r.value
  {
    var st :- StavesSpec(elem.n, backupNum, elem.children);
    var filled :- FillMissing(elem.n, backupNum, st.staves, st.maxBar, expectedNs);
    var target := TargetLength(st.maxBar, activeMeter);
    Ok(if target.Some? then CorrectAll(filled, target.value) else filled)
  }

  function MeasureSpec(elem: MeasureElem, backupNum: int, expectedNs: seq<Option<string>>, activeMeter: Option<real>):
    (r: Result<MeasureResult>)
    ensures r.Ok? ==> forall x :: x in expectedNs ==> x in r.value.staves
  {
    var corrected :- Corrected(elem, backupNum, expectedNs, activeMeter);
    var barred :- Barlines(elem.left, elem.right, corrected);
    Ok(MeasureResult(barred.0, barred.1))
  }

  lemma {:induction false} StavesAfterError(n: Option<string>, backupNum: int, cs: seq<MeasureChild>, k: nat)
    requires 0 < k <= |cs| && StavesSpec(n, backupNum, cs[..k]).Err?
    ensures StavesSpec(n, backupNum, cs) == StavesSpec(n, backupNum, cs[..k])
    decreases |cs| - k
  {
    if k < |cs| {
      assert cs[..k + 1][..k] == cs[..k];
      StavesAfterError(n, backupNum, cs, k + 1);
    } else {
      assert cs[..k] == cs;
    }
  }

  lemma {:induction false} FillAfterError(n: Option<string>, backupNum: int, staves: map<Option<string>, Measure>,
                                          maxBar: Option<real>, ns: seq<Option<string>>, k: nat)
    requires 0 < k <= |ns| && FillMissing(n, backupNum, staves, maxBar, ns[..k]).Err?
    ensures FillMissing(n, backupNum, staves, maxBar, ns) == FillMissing(n, backupNum, staves, maxBar, ns[..k])
    decreases |ns| - k
  {
    if k < |ns| {
      assert ns[..k + 1][..k] == ns[..k];
      FillAfterError(n, backupNum, staves, maxBar, ns, k + 1);
    } else {
      assert ns[..k] == ns;
    }
  }

  /** One more expected staff of the second loop. */
  lemma FillStep(n: Option<string>, backupNum: int, staves: map<Option<string>, Measure>, maxBar: Option<real>,
                 ns: seq<Option<string>>, j: nat)
    requires j < |ns| && FillMissing(n, backupNum, staves, maxBar, ns[..j]).Ok?
    ensures var prior, x, number := FillMissing(n, backupNum, staves, maxBar, ns[..j]).value, ns[j], MeasureNumber(n, backupNum);
      FillMissing(n, backupNum, staves, maxBar, ns[..j + 1]) ==
        if x in prior then Ok(prior)
        else if number.Err? then Err(number.error)
        else Ok(prior[x := RestMeasure(number.value, maxBar)])
  {
    assert ns[..j + 1][..j] == ns[..j];
  }

  /** The first loop of `measureFromElement`: converts each <staff> and keeps the longest length. */
  method CollectStaves(n: Option<string>, backupNum: int, cs: seq<MeasureChild>) returns (r: Result<Staves>)
    ensures r == StavesSpec(n, backupNum, cs)
  {
    var staves: map<Option<string>, Measure> := map[];
    var maxBarDuration: Option<real> := None;
    var i := 0;
    while i < |cs|
      invariant 0 <= i <= |cs|
      invariant StavesSpec(n, backupNum, cs[..i]) == Ok(Staves(staves, maxBarDuration))
    {
      assert cs[..i + 1][..i] == cs[..i];
      if cs[i].StaffElem? {
        var items := StaffFromElement(cs[i].children);
        if items.Err? {
          StavesAfterError(n, backupNum, cs, i + 1);
          return Err(items.error);
        }
        var number := MeasureNumber(n, backupNum);
        if number.Err? {
          StavesAfterError(n, backupNum, cs, i + 1);
          return Err(number.error);
        }
        staves := staves[cs[i].n := NewMeasure(number.value, items.value)];
        var thisBarDuration := ItemsLength(items.value);
        if maxBarDuration.None? || maxBarDuration.value < thisBarDuration {
          maxBarDuration := Some(thisBarDuration);
        }
      }
      i := i + 1;
    }
    assert cs[..i] == cs;
    r := Ok(Staves(staves, maxBarDuration));
  }

  /** The second loop of `measureFromElement`: a rest measure for every expected @n without a staff. */
  method FillStaves(n: Option<string>, backupNum: int, found: map<Option<string>, Measure>, maxBar: Option<real>,
                    expectedNs: seq<Option<string>>) returns (r: Result<map<Option<string>, Measure>>)
    ensures r == FillMissing(n, backupNum, found, maxBar, expectedNs)
  {
    var staves := found;
    var err: Option<Error> := None;
    var j := 0;
    while j < |expectedNs| && err.None?
      invariant 0 <= j <= |expectedNs|
      invariant err.Some? ==> 0 < j
      invariant FillMissing(n, backupNum, found, maxBar, expectedNs[..j]) == if err.None? then Ok(staves) else Err(err.value)
    {
      FillStep(n, backupNum, found, maxBar, expectedNs, j);
      if expectedNs[j] !in staves {
        var number := MeasureNumber(n, backupNum);
        if number.Err? {
          err := Some(number.error);
        } else {
          staves := staves[expectedNs[j] := RestMeasure(number.value, maxBar)];
        }
      }
      j := j + 1;
    }
    if err.Some? {
      FillAfterError(n, backupNum, found, maxBar, expectedNs, j);
      r := Err(err.value);
    } else {
      assert expectedNs[..j] == expectedNs;
      r := Ok(staves);
    }
  }

  /** `measureFromElement(elem, backupNum, expectedNs, activeMeter=...)`. */
  method MeasureFromElement(elem: MeasureElem, backupNum: int, expectedNs: seq<Option<string>>, activeMeter: Option<real>)
    returns (r: Result<MeasureResult>)
    ensures r == MeasureSpec(elem, backupNum, expectedNs, activeMeter)
  {
    var found := CollectStaves(elem.n, backupNum, elem.children);
    if found.Err? {
      return Err(found.error);
    }
    var maxBarDuration := found.value.maxBar;
    var staves := FillStaves(elem.n, backupNum, found.value.staves, maxBarDuration, expectedNs);
    if staves.Err? {
      return Err(staves.error);
    }
    var corrected := staves.value;
    if maxBarDuration == Some(DurTable[None]) && activeMeter.Some? && maxBarDuration.value != activeMeter.value {
      corrected := CorrectMRestDurs(corrected, activeMeter.value);
    } else if maxBarDuration.Some? {
      corrected := CorrectMRestDurs(corrected, maxBarDuration.value);
    }
    assert Corrected(elem, backupNum, expectedNs, activeMeter) == Ok(corrected);
    var barred := Barlines(elem.left, elem.right, corrected);
    if barred.Err? {
      return Err(barred.error);
    }
    r := Ok(MeasureResult(barred.value.0, barred.value.1));
  }

  /**
   * The right barline every measure gets: from @right when present (the first of a
   * 'rptboth' pair), else from @left (the second of a pair), else none.
   */
  function RightBarFrom(left: Option<string>, right: Option<string>): Option<Bar>
  {
    if right.Some? && BarlineFromAttr(right.value).Ok? then
      var b := BarlineFromAttr(right.value).value;
      Some(if b.BarPair? then b.first else b.bar)
    else if right.None? && left.Some? && BarlineFromAttr(left.value).Ok? then
      var b := BarlineFromAttr(left.value).value;
      Some(if b.BarPair? then b.second else b.bar)
    else None
  }

  /**
   * The barline step fails exactly when a present @left or @right does not decode; otherwise it
   * keeps the staves and sets every right barline, and yields a 'next @left' repeat-start
   * exactly for @right="rptboth".
   */
  lemma BarlinesMeaning(left: Option<string>, right: Option<string>, staves: map<Option<string>, Measure>)
    ensures var r := Barlines(left, right, staves);
      r.Ok? <==> (left.None? || BarlineFromAttr(left.value).Ok?) && (right.None? || BarlineFromAttr(right.value).Ok?)
    ensures var r := Barlines(left, right, staves);
      r.Ok? ==> && r.value.0.Keys == staves.Keys
                && (left.Some? || right.Some? ==>
                    forall k :: k in staves ==> r.value.0[k] == staves[k].(rightBarline := RightBarFrom(left, right)))
                && (right.None? && left.None? ==> r.value.0 == staves)
                && (r.value.1.Some? <==> right == Some("rptboth"))
                && (r.value.1.Some? ==> r.value.1 == Some(Repeat(RepeatStart, None)))
  {
  }

  /** @left="rptboth" alone sets the repeat-start as the RIGHT barline of every measure. */
  lemma LeftRptBothGoesRight(staves: map<Option<string>, Measure>)
    ensures Barlines(Some("rptboth"), None, staves).Ok?
    ensures forall k :: k in staves ==>
      Barlines(Some("rptboth"), None, staves).value.0[k].rightBarline == Some(Repeat(RepeatStart, None))
  {
    assert "rptboth"[..3] == "rpt";
  }

  /** One measure before the barlines: fresh apart from its corrected measure rests. */
  lemma {:induction false} CorrectedAt(elem: MeasureElem, backupNum: int, expectedNs: seq<Option<string>>,
                                       activeMeter: Option<real>, k: Option<string>)
    requires Corrected(elem, backupNum, expectedNs, activeMeter).Ok?
    requires k in Corrected(elem, backupNum, expectedNs, activeMeter).value
    ensures var m := Corrected(elem, backupNum, expectedNs, activeMeter).value[k];
      && MeasureNumber(elem.n, backupNum) == Ok(m.number)
      && m.leftBarline.None? && m.rightBarline.None? && m.prefix == [] && !m.padded
      && !ItemsHaveMRest(m.items)
    ensures var m := Corrected(elem, backupNum, expectedNs, activeMeter).value[k];
      var maxBar := StavesSpec(elem.n, backupNum, elem.children).value.maxBar;
      k !in StaffNs(elem.children) ==>
        m.items == [VoiceItem(Voice("1", [Event(Rest, 0, maxBar.GetOr(0.0), [], [], None, false)], None))]
  {
    var st := StavesSpec(elem.n, backupNum, elem.children).value;
    StavesKeys(elem.n, backupNum, elem.children);
    var filled := FillMissing(elem.n, backupNum, st.staves, st.maxBar, expectedNs).value;
    var target := TargetLength(st.maxBar, activeMeter);
    if k !in st.staves {
      var rest := Event(Rest, 0, st.maxBar.GetOr(0.0), [], [], None, false);
      assert filled[k].items == [VoiceItem(Voice("1", [rest], None))];
      assert !HasMRest([rest]);
      assert !ItemsHaveMRest(filled[k].items);
    }
    if target.Some? {
      CorrectMeasureMeaning(filled[k], target.value);
    } else {
      assert st.maxBar.None?;
      assert k !in st.staves;
    }
  }

  /**
   * A converted measure has a measure for every <staff> @n and every expected @n, all with the
   * same number, no left barline yet, and the right barline the attributes decode to; no
   * measure rest is left unresolved; an expected staff without a <staff> is one voice "1"
   * holding one rest as long as the longest staff.
   */
  lemma {:induction false} MeasureSpecMeaning(elem: MeasureElem, backupNum: int, expectedNs: seq<Option<string>>,
                                              activeMeter: Option<real>)
    requires MeasureSpec(elem, backupNum, expectedNs, activeMeter).Ok?
    ensures var r := MeasureSpec(elem, backupNum, expectedNs, activeMeter).value;
      && r.staves.Keys == StaffNs(elem.children) + (set x | x in expectedNs)
      && (r.nextLeft.Some? <==> elem.right == Some("rptboth"))
      && forall k :: k in r.staves ==>
        && MeasureNumber(elem.n, backupNum) == Ok(r.staves[k].number)
        && r.staves[k].leftBarline.None? && r.staves[k].rightBarline == RightBarFrom(elem.left, elem.right)
        && r.staves[k].prefix == [] && !r.staves[k].padded
        && !ItemsHaveMRest(r.staves[k].items)
    ensures var r := MeasureSpec(elem, backupNum, expectedNs, activeMeter).value;
      var maxBar := StavesSpec(elem.n, backupNum, elem.children).value.maxBar;
      forall k :: k in r.staves && k !in StaffNs(elem.children) ==>
        r.staves[k].items == [VoiceItem(Voice("1", [Event(Rest, 0, maxBar.GetOr(0.0), [], [], None, false)], None))]
  {
    var st := StavesSpec(elem.n, backupNum, elem.children).value;
    StavesKeys(elem.n, backupNum, elem.children);
    var corrected := Corrected(elem, backupNum, expectedNs, activeMeter).value;
    assert corrected.Keys == StaffNs(elem.children) + (set x | x in expectedNs);
    BarlinesMeaning(elem.left, elem.right, corrected);
    forall k | k in corrected
      ensures MeasureNumber(elem.n, backupNum) == Ok(corrected[k].number)
      ensures corrected[k].leftBarline.None? && corrected[k].rightBarline.None?
      ensures corrected[k].prefix == [] && !corrected[k].padded && !ItemsHaveMRest(corrected[k].items)
      ensures k !in StaffNs(elem.children) ==>
        (corrected[k].items == [VoiceItem(Voice("1", [Event(Rest, 0, st.maxBar.GetOr(0.0), [], [], None, false)], None))])
    {
      CorrectedAt(elem, backupNum, expectedNs, activeMeter, k);
    }
  }

  /**
   * The length rule for full-measure rests: when every <staff> is only as long as a rest
   * without @dur and the active meter is longer or shorter, each staff that held such a rest
   * now lasts the meter; otherwise it lasts as long as the longest staff.
   */
  lemma {:induction false} MeasureRestLengths(elem: MeasureElem, backupNum: int, expectedNs: seq<Option<string>>,
                                              activeMeter: Option<real>, k: Option<string>)
    requires MeasureSpec(elem, backupNum, expectedNs, activeMeter).Ok?
    requires k in StavesSpec(elem.n, backupNum, elem.children).value.staves
    requires ItemsHaveMRest(StavesSpec(elem.n, backupNum, elem.children).value.staves[k].items)
    ensures var st := StavesSpec(elem.n, backupNum, elem.children).value;
      var m := MeasureSpec(elem, backupNum, expectedNs, activeMeter).value.staves[k];
      && st.maxBar.Some?
      && (st.maxBar == Some(AbsentDurLength) && activeMeter.Some? ==> MeasureLength(m) == activeMeter.value)
      && (st.maxBar != Some(AbsentDurLength) || activeMeter.None? ==> MeasureLength(m) == st.maxBar.value)
  {
    var st := StavesSpec(elem.n, backupNum, elem.children).value;
    StavesKeys(elem.n, backupNum, elem.children);
    var filled := FillMissing(elem.n, backupNum, st.staves, st.maxBar, expectedNs).value;
    var target := TargetLength(st.maxBar, activeMeter);
    var corrected := CorrectAll(filled, target.value);
    assert Corrected(elem, backupNum, expectedNs, activeMeter) == Ok(corrected);
    assert corrected[k] == CorrectMeasure(st.staves[k], target.value);
    CorrectedLength(st.staves[k], target.value);
    BarlinesKeepLength(elem.left, elem.right, corrected, k);
  }

  /** A measure that held a full-measure rest lasts the target once corrected. */
  lemma CorrectedLength(m: Measure, target: real)
    requires ItemsHaveMRest(m.items)
    ensures MeasureLength(CorrectMeasure(m, target)) == target
  {
    CorrectMeasureMeaning(m, target);
  }

  /** Assigning barlines changes no measure's length. */
  lemma BarlinesKeepLength(left: Option<string>, right: Option<string>, staves: map<Option<string>, Measure>, k: Option<string>)
    requires Barlines(left, right, staves).Ok? && k in staves
    ensures k in Barlines(left, right, staves).value.0
    ensures MeasureLength(Barlines(left, right, staves).value.0[k]) == MeasureLength(staves[k])
  {
    BarlinesMeaning(left, right, staves);
  }

  // ---------------------------------------------------------------- run

  /** The score-level children of the sections, in document order. */
  datatype ScoreItem =
    | MeasureItem(measure: MeasureElem)
    | ScoreDefItem(things: seq<Thing>)                   // the all-part objects of a <scoreDef>
    | StaffDefItem(n: Option<string>, things: seq<Thing>)  // @n and the objects of a <staffDef>
    | OtherItem

  /** What a part holds: staff-level objects and measures, in the order they were appended. */
  datatype PartEntry = PartThing(thing: Thing) | PartMeasure(measure: Measure)

  /**
   * The variables `run` carries from item to item: the backup measure number, the objects
   * waiting for the next measure, the left barline announced by the previous measure, the
   * active meter's length and the parts built so far.
   */
  datatype RunState = RunState(
    backupNum: nat, inNext: map<Option<string>, seq<Thing>>, nextLeft: Option<Bar>,
    activeMeter: Option<real>, parsed: map<Option<string>, seq<PartEntry>>)

  /** Both dictionaries are keyed by exactly the parts. */
  ghost predicate Shaped(parts: seq<Option<string>>, st: RunState) {
    && (forall n :: n in st.parsed <==> n in parts)
    && (forall n :: n in st.inNext <==> n in parts)
  }

  function Things(things: seq<Thing>): (r: seq<PartEntry>)
    ensures |r| == |things|
  {
    seq(|things|, k requires 0 <= k < |things| => PartThing(things[k]))
  }

  /** The active meter after a run of objects in which every time signature replaces it. */
  function MeterAfter(things: seq<Thing>, meter: Option<real>): Option<real> {
    if |things| == 0 then meter
    else
      var last := things[|things| - 1];
      if last.TimeSignature? then Some(last.totalLength) else MeterAfter(things[..|things| - 1], meter)
  }

  /** The active meter after a run of objects where only the first time signature counts. */
  function FirstMeter(things: seq<Thing>, meter: Option<real>): Option<real> {
    if |things| == 0 then meter
    else
      var prior := FirstMeter(things[..|things| - 1], meter);
      var last := things[|things| - 1];
      if prior.None? && last.TimeSignature? then Some(last.totalLength) else prior
  }

  /** A measure from `measureFromElement` as `run` appends it to a part. */
  function Placed(m: Measure, st: RunState, n: Option<string>): Measure
    requires n in st.inNext
  {
    m.(prefix := m.prefix + st.inNext[n], padded := m.padded || st.backupNum + 1 == 1,
       leftBarline := if st.nextLeft.Some? then st.nextLeft else m.leftBarline)
  }

  /** A <measure>: every part gets its measure, the queues are flushed and @right's carry-over is kept. */
  function MeasureStep(parts: seq<Option<string>>, st: RunState, elem: MeasureElem): (r: Result<RunState>)
    requires Shaped(parts, st)
    ensures r.Ok? ==> Shaped(parts, r.value)
  {
    var mr :- MeasureSpec(elem, st.backupNum + 1, parts, st.activeMeter);
    Ok(Placing(parts, st, mr))
  }

  /** The result of `measureFromElement` distributed over the parts. */
  function Placing(parts: seq<Option<string>>, st: RunState, mr: MeasureResult): (r: RunState)
    requires Shaped(parts, st) && forall n :: n in parts ==> n in mr.staves
    ensures Shaped(parts, r)
  {
    var placed := PlaceFold(parts, st, mr.staves);
    RunState(st.backupNum + 1, placed.1, mr.nextLeft, st.activeMeter, placed.0)
  }

  /** A <scoreDef>: its objects wait for the next measure in every part; each time signature becomes active. */
  function ScoreDefStep(parts: seq<Option<string>>, st: RunState, things: seq<Thing>): (r: RunState)
    requires Shaped(parts, st)
    ensures Shaped(parts, r)
  {
    QueueThings(st, things, false)
  }

  /** A <staffDef> with @n: its objects go straight into that part; an unknown part is a KeyError. */
  function StaffDefStep(parts: seq<Option<string>>, st: RunState, n: Option<string>, things: seq<Thing>): (r: Result<RunState>)
    requires Shaped(parts, st)
    ensures r.Ok? ==> Shaped(parts, r.value)
  {
    if n.None? || things == [] then Ok(st)
    else if n !in st.parsed then Err(PyError(KeyError))
    else Ok(st.(activeMeter := MeterAfter(things, st.activeMeter),
                parsed := st.parsed[n := st.parsed[n] + Things(things)]))
  }

  function ItemStep(parts: seq<Option<string>>, st: RunState, item: ScoreItem): (r: Result<RunState>)
    requires Shaped(parts, st)
    ensures r.Ok? ==> Shaped(parts, r.value)
  {
    match item
    case MeasureItem(elem) => MeasureStep(parts, st, elem)
    case ScoreDefItem(things) => Ok(ScoreDefStep(parts, st, things))
    case StaffDefItem(n, things) => StaffDefStep(parts, st, n, things)
    case OtherItem => Ok(st)
  }

  /** The loop of `run` over the score-level items. */
  function RunItems(parts: seq<Option<string>>, st: RunState, items: seq<ScoreItem>): (r: Result<RunState>)
    requires Shaped(parts, st)
    ensures r.Ok? ==> Shaped(parts, r.value)
  {
    if |items| == 0 then Ok(st)
    else
      var prior :- RunItems(parts, st, items[..|items| - 1]);
      ItemStep(parts, prior, items[|items| - 1])
  }

  /** The objects of a <scoreDef> queued for every part; with `firstWins` only a first meter becomes active. */
  function QueueThings(st: RunState, things: seq<Thing>, firstWins: bool): RunState {
    st.(activeMeter := if firstWins then FirstMeter(things, st.activeMeter) else MeterAfter(things, st.activeMeter),
        inNext := map n | n in st.inNext :: st.inNext[n] + things)
  }

  /** The @n that `run` writes into its query for a part's <staffDef>: `format` spells a missing @n `None`. */
  function QueryN(n: Option<string>): string {
    if n.Some? then n.value else "None"
  }

  /**
   * The loop of `run` over the parts before the sections. `firstDefs` maps an @n to the objects
   * of the first <staffDef> in the music with that @n. When the query finds none, the source
   * calls `staffDefFromElement(None)`, which fails on `None.find`: an AttributeError.
   */
  function StartFold(ps: seq<Option<string>>, firstDefs: map<string, seq<Thing>>,
                     parsed0: map<Option<string>, seq<PartEntry>>): (r: Result<(map<Option<string>, seq<PartEntry>>, Option<real>)>)
    requires forall n :: n in ps ==> n in parsed0
    ensures r.Ok? ==> r.value.0.Keys == parsed0.Keys
  {
    if |ps| == 0 then Ok((parsed0, None))
    else
      var prior :- StartFold(ps[..|ps| - 1], firstDefs, parsed0);
      var q := QueryN(ps[|ps| - 1]);
      if q !in firstDefs then Err(PyError(AttributeError))
      else Ok((prior.0[ps[|ps| - 1] := prior.0[ps[|ps| - 1]] + Things(firstDefs[q])], FirstMeter(firstDefs[q], prior.1)))
  }

  /**
   * The state before the first section: each part starts with the objects of its first
   * <staffDef>, an initial <scoreDef>'s objects wait for the first measure, and the first time
   * signature met becomes active.
   */
  function InitialState(parts: seq<Option<string>>, firstDefs: map<string, seq<Thing>>,
                        scoreDef: Option<seq<Thing>>): (r: Result<RunState>)
    ensures r.Ok? ==> Shaped(parts, r.value)
  {
    var start :- StartFold(parts, firstDefs, map n | n in parts :: []);
    var st := RunState(0, map n | n in parts :: [], None, start.1, start.0);
    Ok(if scoreDef.Some? then QueueThings(st, scoreDef.value, true) else st)
  }

  /**
   * Over distinct parts, the loop fails with an AttributeError exactly when some part's query
   * finds no <staffDef>, and otherwise each part begins with exactly the objects of its first one.
   */
  lemma {:induction false} StartFoldMeaning(ps: seq<Option<string>>, firstDefs: map<string, seq<Thing>>,
                                            parsed0: map<Option<string>, seq<PartEntry>>)
    requires Distinct(ps) && forall n :: n in ps ==> n in parsed0
    ensures var r := StartFold(ps, firstDefs, parsed0);
      && (r.Ok? <==> forall n :: n in ps ==> QueryN(n) in firstDefs)
      && (r.Err? ==> r.error == PyError(AttributeError))
      && (r.Ok? ==> forall n :: n in parsed0 ==>
            r.value.0[n] == if n in ps then parsed0[n] + Things(firstDefs[QueryN(n)]) else parsed0[n])
    decreases |ps|
  {
    if |ps| > 0 {
      var p := ps[..|ps| - 1];
      assert Distinct(p);
      StartFoldMeaning(p, firstDefs, parsed0);
      assert ps == p + [ps[|ps| - 1]];
      assert ps[|ps| - 1] !in p;
    }
  }

  /**
   * Before the first measure: the set-up fails with an AttributeError exactly when some part's
   * query finds no <staffDef>. Otherwise nothing is counted, no left barline is pending, each
   * part holds the objects of its first <staffDef> as loose objects, and every part's queue
   * holds the objects of the initial <scoreDef>.
   */
  lemma {:induction false} InitialStateMeaning(parts: seq<Option<string>>, firstDefs: map<string, seq<Thing>>,
                            scoreDef: Option<seq<Thing>>)
    requires Distinct(parts)
    ensures var r := InitialState(parts, firstDefs, scoreDef);
      && (r.Ok? <==> forall n :: n in parts ==> QueryN(n) in firstDefs)
      && (r.Err? ==> r.error == PyError(AttributeError))
      && (r.Ok? ==>
        && r.value.backupNum == 0 && r.value.nextLeft.None?
        && (forall n :: n in parts ==> QueryN(n) in firstDefs && r.value.parsed[n] == Things(firstDefs[QueryN(n)]))
        && (forall n :: n in parts ==> r.value.inNext[n] == if scoreDef.Some? then scoreDef.value else []))
  {
    var empty: map<Option<string>, seq<PartEntry>> := map n | n in parts :: [];
    StartFoldMeaning(parts, firstDefs, empty);
    var r := InitialState(parts, firstDefs, scoreDef);
    if r.Ok? {
      var start := StartFold(parts, firstDefs, empty).value;
      var st0 := RunState(0, map n | n in parts :: [], None, start.1, start.0);
      var st := r.value;
      assert st.parsed == start.0;
      forall n | n in parts
        ensures st.parsed[n] == Things(firstDefs[QueryN(n)])
      {
        assert empty[n] == [];
      }
      forall n | n in parts
        ensures st.inNext[n] == if scoreDef.Some? then scoreDef.value else []
      {
        if scoreDef.Some? {
          assert st.inNext[n] == st0.inNext[n] + scoreDef.value;
          assert st0.inNext[n] == [];
        }
      }
    }
  }

  /** The score `run` returns: the parts in part order, then the slurs of the registry. */
  datatype Score = Score(parts: seq<seq<PartEntry>>, spanners: seq<Slur>)

  function AllParts(staffDefNs: seq<Option<string>>): Result<seq<Option<string>>> {
    if staffDefNs == [] then Err(MeiValidityError(SeeminglyNoParts)) else Ok(Dedup(staffDefNs))
  }

  /**
   * `run` after the preprocessing: `staffDefNs` are the @n of the staffDefs in the score,
   * `firstDefs` the objects of the first staffDef with each @n, `scoreDef` those of the first
   * scoreDef, `items` the children of the sections and `slurs` the registry.
   */
  function RunSpec(staffDefNs: seq<Option<string>>, firstDefs: map<string, seq<Thing>>,
                   scoreDef: Option<seq<Thing>>, items: seq<ScoreItem>, slurs: seq<Slur>): (r: Result<Score>)
  {
    var parts :- AllParts(staffDefNs);
    var st0 :- InitialState(parts, firstDefs, scoreDef);
    var st :- RunItems(parts, st0, items);
    Ok(Score(PartsList(parts, st.parsed), slurs))
  }

  /** `[parsed[n] for n in allPartNs]`. */
  function PartsList(parts: seq<Option<string>>, parsed: map<Option<string>, seq<PartEntry>>): (r: seq<seq<PartEntry>>)
    requires forall n :: n in parts ==> n in parsed
    ensures |r| == |parts| && forall k :: 0 <= k < |parts| ==> r[k] == parsed[parts[k]]
  {
    seq(|parts|, k requires 0 <= k < |parts| => parsed[parts[k]])
  }

  // ------------------------------------------------ the loops of run

  lemma DistinctNotInPrefix(parts: seq<Option<string>>, j: nat)
    requires Distinct(parts) && j < |parts|
    ensures parts[j] !in parts[..j]
  {
  }

  /** `for partN in allPartNs: inNextMeasure[partN].append(obj)`. */
  method QueueForAll(parts: seq<Option<string>>, inNext: map<Option<string>, seq<Thing>>, thing: Thing)
    returns (q: map<Option<string>, seq<Thing>>)
    requires Distinct(parts)
    requires forall n :: n in inNext <==> n in parts
    ensures q == map n | n in inNext :: inNext[n] + [thing]
  {
    q := inNext;
    var j := 0;
    while j < |parts|
      invariant 0 <= j <= |parts|
      invariant forall n :: n in q <==> n in inNext
      invariant forall n :: n in q ==> q[n] == if n in parts[..j] then inNext[n] + [thing] else inNext[n]
    {
      DistinctNotInPrefix(parts, j);
      assert parts[..j + 1] == parts[..j] + [parts[j]];
      q := q[parts[j] := q[parts[j]] + [thing]];
      j := j + 1;
    }
    assert parts[..j] == parts;
  }

  /** The objects of a <scoreDef>, queued for every part; with `firstWins` only a first meter becomes active. */
  method QueueScoreDef(parts: seq<Option<string>>, st: RunState, things: seq<Thing>, firstWins: bool)
    returns (r: RunState)
    requires Distinct(parts) && Shaped(parts, st)
    ensures r == QueueThings(st, things, firstWins)
  {
    var inNext := st.inNext;
    var activeMeter := st.activeMeter;
    var t := 0;
    while t < |things|
      invariant 0 <= t <= |things|
      invariant forall n :: n in inNext <==> n in parts
      invariant forall n :: n in inNext ==> inNext[n] == st.inNext[n] + things[..t]
      invariant activeMeter == if firstWins then FirstMeter(things[..t], st.activeMeter) else MeterAfter(things[..t], st.activeMeter)
    {
      assert things[..t + 1][..t] == things[..t];
      assert things[..t + 1] == things[..t] + [things[t]];
      if things[t].TimeSignature? && (!firstWins || activeMeter.None?) {
        activeMeter := Some(things[t].totalLength);
      }
      inNext := QueueForAll(parts, inNext, things[t]);
      t := t + 1;
    }
    assert things[..t] == things;
    assert inNext == map n | n in st.inNext :: st.inNext[n] + things;
    r := st.(activeMeter := activeMeter, inNext := inNext);
  }

  /** The objects of a first <staffDef>: appended to the part, a first time signature becomes active. */
  method CollectFirstDefs(defs: seq<Thing>, meter: Option<real>) returns (entries: seq<PartEntry>, activeMeter: Option<real>)
    ensures entries == Things(defs) && activeMeter == FirstMeter(defs, meter)
  {
    entries := [];
    activeMeter := meter;
    var t := 0;
    while t < |defs|
      invariant 0 <= t <= |defs|
      invariant entries == Things(defs[..t])
      invariant activeMeter == FirstMeter(defs[..t], meter)
    {
      assert defs[..t + 1][..t] == defs[..t];
      if activeMeter.None? && defs[t].TimeSignature? {
        activeMeter := Some(defs[t].totalLength);
      }
      entries := entries + [PartThing(defs[t])];
      t := t + 1;
    }
    assert defs[..t] == defs;
  }

  /** The set-up of `run` before the sections. */
  method StartRun(parts: seq<Option<string>>, firstDefs: map<string, seq<Thing>>, scoreDef: Option<seq<Thing>>)
    returns (r: Result<RunState>)
    requires Distinct(parts)
    ensures r == InitialState(parts, firstDefs, scoreDef)
  {
    var parsed: map<Option<string>, seq<PartEntry>> := map n | n in parts :: [];
    var inNext: map<Option<string>, seq<Thing>> := map n | n in parts :: [];
    ghost var parsed0 := parsed;
    var activeMeter: Option<real> := None;
    var j := 0;
    while j < |parts|
      invariant 0 <= j <= |parts|
      invariant StartFold(parts[..j], firstDefs, parsed0) == Ok((parsed, activeMeter))
    {
      assert parts[..j + 1][..j] == parts[..j];
      var n := parts[j];
      var q := QueryN(n);
      if q !in firstDefs {
        InitialStateMeaning(parts, firstDefs, scoreDef);
        assert n in parts;
        return Err(PyError(AttributeError));
      }
      var entries;
      entries, activeMeter := CollectFirstDefs(firstDefs[q], activeMeter);
      parsed := parsed[n := parsed[n] + entries];
      j := j + 1;
    }
    assert parts[..j] == parts;
    var st := RunState(0, inNext, None, activeMeter, parsed);
    if scoreDef.Some? {
      st := QueueScoreDef(parts, st, scoreDef.value, true);
    }
    r := Ok(st);
  }

  /** Part `n` after the <measure> branch: its measure, completed, appended. */
  function Appended(st: RunState, staves: map<Option<string>, Measure>, n: Option<string>): seq<PartEntry>
    requires n in st.parsed && n in st.inNext && n in staves
  {
    st.parsed[n] + [PartMeasure(Placed(staves[n], st, n))]
  }

  /** One part of the inner loop of the <measure> branch. */
  method CompleteMeasure(st: RunState, m0: Measure, n: Option<string>) returns (m: Measure)
    requires n in st.inNext
    ensures m == Placed(m0, st, n)
  {
    m := m0.(prefix := m0.prefix + st.inNext[n]);
    if 1 == st.backupNum + 1 {
      m := m.(padded := true);
    }
    if st.nextLeft.Some? {
      m := m.(leftBarline := st.nextLeft);
    }
  }

  /** The inner loop of the <measure> branch over the parts `ps`, as the source runs it. */
  function PlaceFold(ps: seq<Option<string>>, st: RunState, staves: map<Option<string>, Measure>):
    (r: (map<Option<string>, seq<PartEntry>>, map<Option<string>, seq<Thing>>))
    requires forall n :: n in ps ==> n in staves && n in st.parsed && n in st.inNext
    ensures r.0.Keys == st.parsed.Keys && r.1.Keys == st.inNext.Keys
  {
    if |ps| == 0 then (st.parsed, st.inNext)
    else
      var prior := PlaceFold(ps[..|ps| - 1], st, staves);
      var n := ps[|ps| - 1];
      (prior.0[n := prior.0[n] + [PartMeasure(Placed(staves[n], st, n))]], prior.1[n := []])
  }

  /** Over distinct parts, each part listed gets exactly its measure and an empty queue. */
  lemma {:induction false} PlaceFoldMeaning(ps: seq<Option<string>>, st: RunState, staves: map<Option<string>, Measure>)
    requires Distinct(ps)
    requires forall n :: n in ps ==> n in staves && n in st.parsed && n in st.inNext
    ensures forall n :: n in st.parsed ==> PlaceFold(ps, st, staves).0[n] == if n in ps then Appended(st, staves, n) else st.parsed[n]
    ensures forall n :: n in st.inNext ==> PlaceFold(ps, st, staves).1[n] == if n in ps then [] else st.inNext[n]
    decreases |ps|
  {
    if |ps| > 0 {
      var p, last := ps[..|ps| - 1], ps[|ps| - 1];
      assert Distinct(p);
      PlaceFoldMeaning(p, st, staves);
      assert forall n :: n in ps <==> n in p || n == last;
      assert last !in p;
      var q, r := PlaceFold(p, st, staves), PlaceFold(ps, st, staves);
      assert r.0 == q.0[last := q.0[last] + [PartMeasure(Placed(staves[last], st, last))]];
      assert r.1 == q.1[last := []];
      assert q.0[last] == st.parsed[last];
    }
  }

  /** One more part of the inner loop. */
  lemma PlaceFoldStep(ps: seq<Option<string>>, j: nat, st: RunState, staves: map<Option<string>, Measure>)
    requires j < |ps|
    requires forall n :: n in ps ==> n in staves && n in st.parsed && n in st.inNext
    ensures forall n :: n in ps[..j] ==> n in staves && n in st.parsed && n in st.inNext
    ensures var prior, n := PlaceFold(ps[..j], st, staves), ps[j];
      PlaceFold(ps[..j + 1], st, staves) == (prior.0[n := prior.0[n] + [PartMeasure(Placed(staves[n], st, n))]], prior.1[n := []])
  {
    assert ps[..j + 1][..j] == ps[..j];
    assert forall n :: n in ps[..j + 1] ==> n in ps;
  }

  /** The inner loop of the <measure> branch: each part's measure is completed and appended. */
  method PlaceAll(parts: seq<Option<string>>, st: RunState, staves: map<Option<string>, Measure>)
    returns (parsed: map<Option<string>, seq<PartEntry>>, inNext: map<Option<string>, seq<Thing>>)
    requires Distinct(parts) && Shaped(parts, st)
    requires forall n :: n in parts ==> n in staves
    ensures (parsed, inNext) == PlaceFold(parts, st, staves)
  {
    parsed := st.parsed;
    inNext := st.inNext;
    var j := 0;
    while j < |parts|
      invariant 0 <= j <= |parts|
      invariant (parsed, inNext) == PlaceFold(parts[..j], st, staves)
    {
      PlaceFoldStep(parts, j, st, staves);
      var n := parts[j];
      var m := CompleteMeasure(st, staves[n], n);
      inNext := inNext[n := []];
      parsed := parsed[n := parsed[n] + [PartMeasure(m)]];
      j := j + 1;
    }
    assert parts[..j] == parts;
  }

  /** The <measure> branch of `run`. */
  method PlaceMeasure(parts: seq<Option<string>>, st: RunState, elem: MeasureElem) returns (r: Result<RunState>)
    requires Distinct(parts) && Shaped(parts, st)
    ensures r == MeasureStep(parts, st, elem)
  {
    var backupMeasureNum := st.backupNum + 1;
    var measureResult := MeasureFromElement(elem, backupMeasureNum, parts, st.activeMeter);
    if measureResult.Err? {
      return Err(measureResult.error);
    }
    var parsed, inNext := PlaceAll(parts, st, measureResult.value.staves);
    r := Ok(RunState(backupMeasureNum, inNext, measureResult.value.nextLeft, st.activeMeter, parsed));
  }

  /** The <staffDef> branch of `run`. */
  method AddStaffDef(parts: seq<Option<string>>, st: RunState, n: Option<string>, things: seq<Thing>)
    returns (r: Result<RunState>)
    requires Shaped(parts, st)
    ensures r == StaffDefStep(parts, st, n, things)
  {
    if n.None? {
      return Ok(st);
    }
    var activeMeter := st.activeMeter;
    var entries: seq<PartEntry> := [];
    var t := 0;
    while t < |things|
      invariant 0 <= t <= |things|
      invariant entries == Things(things[..t])
      invariant activeMeter == MeterAfter(things[..t], st.activeMeter)
      invariant t > 0 ==> n in st.parsed
    {
      assert things[..t + 1][..t] == things[..t];
      if things[t].TimeSignature? {
        activeMeter := Some(things[t].totalLength);
      }
      if n !in st.parsed {
        return Err(PyError(KeyError));
      }
      entries := entries + [PartThing(things[t])];
      t := t + 1;
    }
    assert things[..t] == things;
    if t == 0 {
      return Ok(st);
    }
    r := Ok(st.(activeMeter := activeMeter, parsed := st.parsed[n := st.parsed[n] + entries]));
  }

  lemma {:induction false} RunAfterError(parts: seq<Option<string>>, st: RunState, items: seq<ScoreItem>, k: nat)
    requires Shaped(parts, st)
    requires 0 < k <= |items| && RunItems(parts, st, items[..k]).Err?
    ensures RunItems(parts, st, items) == RunItems(parts, st, items[..k])
    decreases |items| - k
  {
    if k < |items| {
      assert items[..k + 1][..k] == items[..k];
      RunAfterError(parts, st, items, k + 1);
    } else {
      assert items[..k] == items;
    }
  }

  /** The body of the loop of `run` for one item. */
  method RunStep(parts: seq<Option<string>>, st: RunState, item: ScoreItem) returns (next: Result<RunState>)
    requires Distinct(parts) && Shaped(parts, st)
    ensures next == ItemStep(parts, st, item)
  {
    match item
    case MeasureItem(elem) =>
      next := PlaceMeasure(parts, st, elem);
    case ScoreDefItem(things) =>
      var q := QueueScoreDef(parts, st, things, false);
      next := Ok(q);
    case StaffDefItem(n, things) =>
      next := AddStaffDef(parts, st, n, things);
    case OtherItem =>
      next := Ok(st);
  }

  /** The loop of `run` over the children of the sections. */
  method RunLoop(parts: seq<Option<string>>, st0: RunState, items: seq<ScoreItem>) returns (r: Result<RunState>)
    requires Distinct(parts) && Shaped(parts, st0)
    ensures r == RunItems(parts, st0, items)
  {
    var st := st0;
    var i := 0;
    while i < |items|
      invariant 0 <= i <= |items|
      invariant Shaped(parts, st)
      invariant RunItems(parts, st0, items[..i]) == Ok(st)
    {
      assert items[..i + 1][..i] == items[..i];
      var next := RunStep(parts, st, items[i]);
      assert RunItems(parts, st0, items[..i + 1]) == next;
      if next.Err? {
        RunAfterError(parts, st0, items, i + 1);
        return Err(next.error);
      }
      st := next.value;
      i := i + 1;
    }
    assert items[..i] == items;
    r := Ok(st);
  }

  /** `[parsed[n] for n in allPartNs]`. */
  method PartsInOrder(parts: seq<Option<string>>, parsed: map<Option<string>, seq<PartEntry>>) returns (r: seq<seq<PartEntry>>)
    requires forall n :: n in parts ==> n in parsed
    ensures r == PartsList(parts, parsed)
  {
    r := [];
    var k := 0;
    while k < |parts|
      invariant 0 <= k <= |parts|
      invariant r == seq(k, j requires 0 <= j < k => parsed[parts[j]])
    {
      r := r + [parsed[parts[k]]];
      k := k + 1;
    }
  }

  /** `MeiToM21Converter.run` from the part list on. */
  method Run(staffDefNs: seq<Option<string>>, firstDefs: map<string, seq<Thing>>,
             scoreDef: Option<seq<Thing>>, items: seq<ScoreItem>, slurs: seq<Slur>) returns (r: Result<Score>)
    ensures r == RunSpec(staffDefNs, firstDefs, scoreDef, items, slurs)
  {
    var allPartNs := AllPartsPresent(staffDefNs);
    if allPartNs.Err? {
      return Err(allPartNs.error);
    }
    var parts := allPartNs.value;
    DedupMeaning(staffDefNs);
    var st0 := StartRun(parts, firstDefs, scoreDef);
    if st0.Err? {
      return Err(st0.error);
    }
    var st := RunLoop(parts, st0.value, items);
    if st.Err? {
      return Err(st.error);
    }
    var parsed := PartsInOrder(parts, st.value.parsed);
    r := Ok(Score(parsed, slurs));
  }

  // ------------------------------------------------ what the run builds

  /**
   * What `measureFromElement` promises of the measure of every part: the number, no left
   * barline yet, the right barline from @left/@right, nothing queued, not padded and no
   * full-measure rest left.
   */
  ghost predicate Fits(parts: seq<Option<string>>, mr: MeasureResult, elem: MeasureElem, backupNum: int) {
    && (mr.nextLeft.Some? <==> elem.right == Some("rptboth"))
    && forall n :: n in parts ==>
      && n in mr.staves
      && MeasureNumber(elem.n, backupNum) == Ok(mr.staves[n].number)
      && mr.staves[n].leftBarline.None? && mr.staves[n].rightBarline == RightBarFrom(elem.left, elem.right)
      && mr.staves[n].prefix == [] && !mr.staves[n].padded && !ItemsHaveMRest(mr.staves[n].items)
  }

  /** The <measure> branch is placing the result of `measureFromElement`, which fits. */
  lemma {:induction false} MeasureStepMeaning(parts: seq<Option<string>>, st: RunState, elem: MeasureElem)
    requires Shaped(parts, st)
    ensures MeasureStep(parts, st, elem).Err? <==> MeasureSpec(elem, st.backupNum + 1, parts, st.activeMeter).Err?
    ensures MeasureStep(parts, st, elem).Ok? ==>
      var mr := MeasureSpec(elem, st.backupNum + 1, parts, st.activeMeter).value;
      Fits(parts, mr, elem, st.backupNum + 1) && MeasureStep(parts, st, elem).value == Placing(parts, st, mr)
  {
    var r := MeasureSpec(elem, st.backupNum + 1, parts, st.activeMeter);
    if r.Ok? {
      MeasureSpecMeaning(elem, st.backupNum + 1, parts, st.activeMeter);
    }
  }

  /**
   * Placing a <measure>: the counter goes up by one, the meter is kept, every queue is
   * emptied, and every part gets one measure holding that part's queued objects, padded
   * exactly when it is the first measure, with the left barline carried over from the
   * previous measure and the right barline and number from the <measure> itself.
   */
  lemma {:induction false} PlacingMeaning(parts: seq<Option<string>>, st: RunState, mr: MeasureResult, elem: MeasureElem)
    requires Distinct(parts) && Shaped(parts, st) && Fits(parts, mr, elem, st.backupNum + 1)
    ensures var r := Placing(parts, st, mr);
      && r.backupNum == st.backupNum + 1 && r.activeMeter == st.activeMeter
      && r.nextLeft == mr.nextLeft && (r.nextLeft.Some? <==> elem.right == Some("rptboth"))
      && forall n :: n in parts ==>
        && r.inNext[n] == []
        && r.parsed[n] == st.parsed[n] + [PartMeasure(Placed(mr.staves[n], st, n))]
    ensures forall n :: n in parts ==>
        var m := Placed(mr.staves[n], st, n);
        && m.prefix == st.inNext[n]
        && (m.padded <==> st.backupNum == 0)
        && m.leftBarline == st.nextLeft
        && m.rightBarline == RightBarFrom(elem.left, elem.right)
        && MeasureNumber(elem.n, st.backupNum + 1) == Ok(m.number)
        && !ItemsHaveMRest(m.items)
  {
    PlaceFoldMeaning(parts, st, mr.staves);
    forall n | n in parts
      ensures var m := Placed(mr.staves[n], st, n);
        && m.prefix == st.inNext[n]
        && (m.padded <==> st.backupNum == 0)
        && m.leftBarline == st.nextLeft
        && m.rightBarline == RightBarFrom(elem.left, elem.right)
        && MeasureNumber(elem.n, st.backupNum + 1) == Ok(m.number)
        && !ItemsHaveMRest(m.items)
    {
      PlacedMeaning(mr.staves[n], st, n);
    }
  }

  /** Completing a fresh measure of part `n`: only its queue, padding and left barline change. */
  lemma PlacedMeaning(m0: Measure, st: RunState, n: Option<string>)
    requires n in st.inNext && m0.prefix == [] && !m0.padded && m0.leftBarline.None?
    ensures var m := Placed(m0, st, n);
      && m == m0.(prefix := m.prefix, padded := m.padded, leftBarline := m.leftBarline)
      && m.prefix == st.inNext[n] && (m.padded <==> st.backupNum == 0) && m.leftBarline == st.nextLeft
  {
    assert [] + st.inNext[n] == st.inNext[n];
  }

  /** The measures of a part, in order. */
  function MeasuresOf(entries: seq<PartEntry>): (r: seq<Measure>)
    ensures |r| <= |entries|
  {
    if |entries| == 0 then []
    else
      var prior := MeasuresOf(entries[..|entries| - 1]);
      match entries[|entries| - 1]
      case PartMeasure(m) => prior + [m]
      case PartThing(_) => prior
  }

  /** How many <measure> children the sections have. */
  function MeasureItems(items: seq<ScoreItem>): (r: nat)
    ensures r <= |items|
  {
    if |items| == 0 then 0
    else MeasureItems(items[..|items| - 1]) + if items[|items| - 1].MeasureItem? then 1 else 0
  }

  lemma {:induction false} MeasuresOfThings(entries: seq<PartEntry>, things: seq<Thing>)
    ensures MeasuresOf(entries + Things(things)) == MeasuresOf(entries)
    decreases |things|
  {
    if |things| > 0 {
      var p := things[..|things| - 1];
      MeasuresOfThings(entries, p);
      var e := entries + Things(things);
      assert Things(things) == Things(p) + [PartThing(things[|things| - 1])];
      assert e == (entries + Things(p)) + [PartThing(things[|things| - 1])];
      assert e[..|e| - 1] == entries + Things(p);
      assert e[|e| - 1] == PartThing(things[|things| - 1]);
    } else {
      assert entries + Things(things) == entries;
    }
  }

  lemma MeasuresOfAppend(entries: seq<PartEntry>, m: Measure)
    ensures MeasuresOf(entries + [PartMeasure(m)]) == MeasuresOf(entries) + [m]
  {
    assert (entries + [PartMeasure(m)])[..|entries|] == entries;
  }

  /** Only the first measure is padded for an anacrusis. */
  predicate PadsFirstOnly(ms: seq<Measure>) {
    forall i :: 0 <= i < |ms| ==> (ms[i].padded <==> i == 0)
  }

  /** Every part holds as many measures as the counter says, and only its first is padded. */
  ghost predicate Counted(parts: seq<Option<string>>, st: RunState)
    requires Shaped(parts, st)
  {
    forall n :: n in parts ==> |MeasuresOf(st.parsed[n])| == st.backupNum && PadsFirstOnly(MeasuresOf(st.parsed[n]))
  }

  lemma {:induction false} InitialCounted(parts: seq<Option<string>>, firstDefs: map<string, seq<Thing>>,
                                          scoreDef: Option<seq<Thing>>)
    requires Distinct(parts) && InitialState(parts, firstDefs, scoreDef).Ok?
    ensures Counted(parts, InitialState(parts, firstDefs, scoreDef).value)
  {
    InitialStateMeaning(parts, firstDefs, scoreDef);
    var st := InitialState(parts, firstDefs, scoreDef).value;
    forall n | n in parts
      ensures MeasuresOf(st.parsed[n]) == []
    {
      var q := QueryN(n);
      MeasuresOfThings([], firstDefs[q]);
      assert [] + Things(firstDefs[q]) == Things(firstDefs[q]);
    }
  }

  lemma {:induction false} PlacingCounted(parts: seq<Option<string>>, st: RunState, mr: MeasureResult, elem: MeasureElem)
    requires Distinct(parts) && Shaped(parts, st) && Fits(parts, mr, elem, st.backupNum + 1) && Counted(parts, st)
    ensures Counted(parts, Placing(parts, st, mr))
  {
    PlacingMeaning(parts, st, mr, elem);
    var r := Placing(parts, st, mr);
    forall n | n in parts
      ensures |MeasuresOf(r.parsed[n])| == r.backupNum && PadsFirstOnly(MeasuresOf(r.parsed[n]))
    {
      var m := Placed(mr.staves[n], st, n);
      MeasuresOfAppend(st.parsed[n], m);
      PadsFirstOnlyAppend(MeasuresOf(st.parsed[n]), m);
    }
  }

  lemma PadsFirstOnlyAppend(ms: seq<Measure>, m: Measure)
    requires PadsFirstOnly(ms) && (m.padded <==> |ms| == 0)
    ensures PadsFirstOnly(ms + [m])
  {
    forall i | 0 <= i < |ms| + 1
      ensures ((ms + [m])[i].padded <==> i == 0)
    {
      if i < |ms| {
        assert (ms + [m])[i] == ms[i];
      }
    }
  }

  lemma {:induction false} ItemStepCounted(parts: seq<Option<string>>, st: RunState, item: ScoreItem)
    requires Distinct(parts) && Shaped(parts, st) && Counted(parts, st)
    requires ItemStep(parts, st, item).Ok?
    ensures Counted(parts, ItemStep(parts, st, item).value)
    ensures ItemStep(parts, st, item).value.backupNum == st.backupNum + if item.MeasureItem? then 1 else 0
  {
    match item
    case MeasureItem(elem) =>
      MeasureStepMeaning(parts, st, elem);
      PlacingCounted(parts, st, MeasureSpec(elem, st.backupNum + 1, parts, st.activeMeter).value, elem);
    case ScoreDefItem(things) =>
    case StaffDefItem(n, things) =>
      if n.Some? && things != [] {
        MeasuresOfThings(st.parsed[n], things);
      }
    case OtherItem =>
  }

  lemma {:induction false} RunCounted(parts: seq<Option<string>>, st: RunState, items: seq<ScoreItem>)
    requires Distinct(parts) && Shaped(parts, st) && Counted(parts, st)
    requires RunItems(parts, st, items).Ok?
    ensures Counted(parts, RunItems(parts, st, items).value)
    ensures RunItems(parts, st, items).value.backupNum == st.backupNum + MeasureItems(items)
    decreases |items|
  {
    if |items| > 0 {
      var p := items[..|items| - 1];
      RunCounted(parts, st, p);
      ItemStepCounted(parts, RunItems(parts, st, p).value, items[|items| - 1]);
    }
  }

  /**
   * The score: one part per distinct staff @n, in order of first appearance, each holding one
   * measure per <measure> of the sections, only the first of them padded for an anacrusis,
   * followed by the slurs.
   */
  lemma {:induction false} RunSpecMeaning(staffDefNs: seq<Option<string>>, firstDefs: map<string, seq<Thing>>,
                                          scoreDef: Option<seq<Thing>>, items: seq<ScoreItem>, slurs: seq<Slur>)
    requires RunSpec(staffDefNs, firstDefs, scoreDef, items, slurs).Ok?
    ensures var score := RunSpec(staffDefNs, firstDefs, scoreDef, items, slurs).value;
      && staffDefNs != [] && |score.parts| == |Dedup(staffDefNs)| && score.spanners == slurs
      && forall k :: 0 <= k < |score.parts| ==>
        |MeasuresOf(score.parts[k])| == MeasureItems(items) && PadsFirstOnly(MeasuresOf(score.parts[k]))
  {
    var parts := Dedup(staffDefNs);
    DedupMeaning(staffDefNs);
    var st0 := InitialState(parts, firstDefs, scoreDef).value;
    InitialCounted(parts, firstDefs, scoreDef);
    RunCounted(parts, st0, items);
    var st := RunItems(parts, st0, items).value;
    PartsListCounted(parts, st);
  }

  lemma {:induction false} PartsListCounted(parts: seq<Option<string>>, st: RunState)
    requires Shaped(parts, st) && Counted(parts, st)
    ensures forall k :: 0 <= k < |parts| ==>
      |MeasuresOf(PartsList(parts, st.parsed)[k])| == st.backupNum && PadsFirstOnly(MeasuresOf(PartsList(parts, st.parsed)[k]))
  {
    forall k | 0 <= k < |parts|
      ensures |MeasuresOf(PartsList(parts, st.parsed)[k])| == st.backupNum
      ensures PadsFirstOnly(MeasuresOf(PartsList(parts, st.parsed)[k]))
    {
      assert parts[k] in parts;
    }
  }

  /**
   * `run` fails exactly when there are no parts, when a part's query finds no <staffDef>, or
   * when one of the sections' children fails.
   */
  lemma {:induction false} RunSpecErrors(staffDefNs: seq<Option<string>>, firstDefs: map<string, seq<Thing>>,
                                         scoreDef: Option<seq<Thing>>, items: seq<ScoreItem>, slurs: seq<Slur>)
    ensures staffDefNs == [] ==> RunSpec(staffDefNs, firstDefs, scoreDef, items, slurs) == Err(MeiValidityError(SeeminglyNoParts))
    ensures staffDefNs != [] && (exists n :: n in staffDefNs && QueryN(n) !in firstDefs) ==>
      RunSpec(staffDefNs, firstDefs, scoreDef, items, slurs) == Err(PyError(AttributeError))
    ensures staffDefNs != [] && (forall n :: n in staffDefNs ==> QueryN(n) in firstDefs) ==>
      var parts := Dedup(staffDefNs);
      && InitialState(parts, firstDefs, scoreDef).Ok?
      && (RunSpec(staffDefNs, firstDefs, scoreDef, items, slurs).Err? <==>
          RunItems(parts, InitialState(parts, firstDefs, scoreDef).value, items).Err?)
  {
    if staffDefNs != [] {
      DedupMeaning(staffDefNs);
      InitialStateMeaning(Dedup(staffDefNs), firstDefs, scoreDef);
    }
  }

  /**
   * A <staffDef> without @n is the part `None`; unless some <staffDef> has the literal @n
   * "None", `run` fails with an AttributeError before any measure.
   */
  lemma {:induction false} NonePartFails(staffDefNs: seq<Option<string>>, firstDefs: map<string, seq<Thing>>,
                                         scoreDef: Option<seq<Thing>>, items: seq<ScoreItem>, slurs: seq<Slur>)
    requires None in staffDefNs && "None" !in firstDefs
    ensures RunSpec(staffDefNs, firstDefs, scoreDef, items, slurs) == Err(PyError(AttributeError))
  {
    RunSpecErrors(staffDefNs, firstDefs, scoreDef, items, slurs);
    assert QueryN(None) !in firstDefs;
  }
}
