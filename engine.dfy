/**
 * The tuplet and beam engine: the converted objects of a layer, tuplet or beam group are an
 * array of events that `scaleToTuplet`, `_guessTuplets`, `beamTogether` and the start/stop
 * logic of `tupletFromElement` update in place.
 */
module Engine {
  import opened Wrappers
  import opened Strings
  import opened Seqs

  /** The classes of converted objects the engine tells apart. */
  datatype Kind = Note | Rest | Chord | SpacerRest | Clef | OtherObject

  /**
   * Note, Rest, Chord and SpacerRest (a kind of Rest): the objects the engine gives tuplets
   * to, and exactly the GeneralNotes among the kinds.
   */
  predicate HasDuration(k: Kind) {
    k == Note || k == Rest || k == Chord || k == SpacerRest
  }

  /** Only notes and chords carry beams. */
  predicate HasBeams(k: Kind) {
    k == Note || k == Chord
  }

  /** A tuplet: `actual` notes in the time of `normal`, with an optional 'start'/'stop' type. */
  datatype Tuplet = Tuplet(actual: int, normal: int, ttype: Option<string>)

  /** The deferred-tuplet marks of an object: @m21TupletSearch and the raw @num/@numbase. */
  datatype Search = Search(role: string, num: Option<string>, numbase: Option<string>)

  /**
   * A converted object. `flags` is the number of beams its written type carries (1 for an
   * eighth, 2 for a 16th, ...), zero for a quarter or longer, so it is positive exactly when
   * the type number is above 4. `ql` is the quarter length; `wasMRest` marks a measure rest
   * whose length is still to be fixed.
   */
  datatype Event = Event(
    kind: Kind, flags: nat, ql: real, beams: seq<string>, tuplets: seq<Tuplet>,
    search: Option<Search>, wasMRest: bool)

  /** Python's `int(v)` of an attribute value: `int(None)` is a TypeError, a non-integer a ValueError. */
  function PyInt(v: Option<string>): (r: Result<int>)
    ensures v.None? ==> r == Err(PyError(TypeError))
    ensures v.Some? ==> (r.Ok? <==> ParseInt(v.value).Some?)
    ensures r.Ok? ==> v.Some? && ParseInt(v.value) == Some(r.value)
  {
    if v.None? then Err(PyError(TypeError))
    else if ParseInt(v.value).None? then Err(PyError(ValueError))
    else Ok(ParseInt(v.value).value)
  }

  /**
   * `duration.appendTuplet`: the event gains the tuplet and its length is scaled by
   * normal/actual; a zero actual count has no multiplier.
   */
  function AppendTuplet(e: Event, actual: int, normal: int): (r: Result<Event>)
    ensures r.Ok? <==> actual != 0
    ensures r.Ok? ==> r.value.ql == ScaledLength(e.ql, actual, normal)
    ensures r.Ok? ==> r.value.ql * (actual as real) == e.ql * (normal as real)
    ensures r.Ok? ==> r.value.tuplets == e.tuplets + [Tuplet(actual, normal, None)]
    ensures r.Ok? ==> r.value == e.(ql := r.value.ql, tuplets := r.value.tuplets)
  {
    if actual == 0 then Err(PyError(ZeroDivisionError))
    else Ok(e.(ql := ScaledLength(e.ql, actual, normal), tuplets := e.tuplets + [Tuplet(actual, normal, None)]))
  }

  /** A length in a tuplet of `actual` notes in the time of `normal`. */
  function ScaledLength(ql: real, actual: int, normal: int): (r: real)
    requires actual != 0
    ensures r * (actual as real) == ql * (normal as real)
  {
    ql * (normal as real) / (actual as real)
  }

  /** Sets the type of the event's first tuplet (not necessarily the one appended last). */
  function SetFirstTupletType(e: Event, t: string): (r: Event)
    requires |e.tuplets| > 0
    ensures |r.tuplets| == |e.tuplets| && r.tuplets[0].ttype == Some(t)
    ensures r.tuplets[1..] == e.tuplets[1..]
    ensures r == e.(tuplets := r.tuplets)
  {
    e.(tuplets := e.tuplets[0 := e.tuplets[0].(ttype := Some(t))])
  }

  /** The attributes of the element `scaleToTuplet` reads. */
  datatype TupletAttrs = TupletAttrs(
    search: Option<string>, num: Option<string>, numbase: Option<string>,
    ttype: Option<string>, tuplet: Option<string>)

  /** `scaleToTuplet` on one object. */
  function ScaleEvent(e: Event, t: TupletAttrs): Result<Event> {
    if !HasDuration(e.kind) then Ok(e)
    else if t.search.Some? then Ok(e.(search := Some(Search(t.search.value, t.num, t.numbase))))
    else
      var num :- PyInt(t.num);
      var numbase :- PyInt(t.numbase);
      var scaled :- AppendTuplet(e, num, numbase);
      Ok(TypeFirstTuplet(scaled, t))
  }

  /**
   * The type `scaleToTuplet` gives the first tuplet: @m21TupletType when present, else 'start'
   * for an @tuplet beginning with 'i' and 'stop' for one beginning with 't'; otherwise none is set.
   */
  function TypeFirstTuplet(scaled: Event, t: TupletAttrs): (r: Event)
    requires |scaled.tuplets| > 0
    ensures r.ql == scaled.ql && |r.tuplets| == |scaled.tuplets| && r.tuplets[1..] == scaled.tuplets[1..]
    ensures r == scaled.(tuplets := r.tuplets)
    ensures t.ttype.Some? ==> r.tuplets[0].ttype == t.ttype
    ensures t.ttype.None? && StartsWith(t.tuplet.GetOr(""), "i") ==> r.tuplets[0].ttype == Some("start")
    ensures t.ttype.None? && StartsWith(t.tuplet.GetOr(""), "t") ==> r.tuplets[0].ttype == Some("stop")
    ensures t.ttype.None? && !StartsWith(t.tuplet.GetOr(""), "i") && !StartsWith(t.tuplet.GetOr(""), "t") ==>
      r == scaled
  {
    if t.ttype.Some? then SetFirstTupletType(scaled, t.ttype.value)
    else if StartsWith(t.tuplet.GetOr(""), "i") then SetFirstTupletType(scaled, "start")
    else if StartsWith(t.tuplet.GetOr(""), "t") then SetFirstTupletType(scaled, "stop")
    else scaled
  }

  /**
   * What `scaleToTuplet` does to one object: objects without a duration are untouched; with
   * @m21TupletSearch only the search marks are recorded; otherwise the object gains one tuplet
   * of @m21TupletNum in the time of @m21TupletNumbase, its length is scaled by their ratio, and
   * its first tuplet's type comes from @m21TupletType, or from @tuplet ('i…' start, 't…' stop).
   */
  lemma ScaleEventMeaning(e: Event, t: TupletAttrs)
    ensures !HasDuration(e.kind) ==> ScaleEvent(e, t) == Ok(e)
    ensures HasDuration(e.kind) && t.search.Some? ==>
      ScaleEvent(e, t) == Ok(e.(search := Some(Search(t.search.value, t.num, t.numbase))))
    ensures HasDuration(e.kind) && t.search.None? ==>
      (ScaleEvent(e, t).Ok? <==> PyInt(t.num).Ok? && PyInt(t.numbase).Ok? && PyInt(t.num).value != 0)
  {
  }

  /** The scaled object: one more tuplet, its length scaled, only the first tuplet's type touched. */
  lemma ScaleEventScales(e: Event, t: TupletAttrs)
    requires HasDuration(e.kind) && t.search.None? && ScaleEvent(e, t).Ok?
    ensures var r := ScaleEvent(e, t).value;
      var n, nb := PyInt(t.num).value, PyInt(t.numbase).value;
      && n != 0 && r.ql == ScaledLength(e.ql, n, nb)
      && |r.tuplets| == |e.tuplets| + 1
      && r.tuplets[1..] == (e.tuplets + [Tuplet(n, nb, None)])[1..]
      && r == e.(ql := r.ql, tuplets := r.tuplets)
      && (t.ttype.Some? ==> r.tuplets[0].ttype == t.ttype)
      && (t.ttype.None? && StartsWith(t.tuplet.GetOr(""), "i") ==> r.tuplets[0].ttype == Some("start"))
      && (t.ttype.None? && StartsWith(t.tuplet.GetOr(""), "t") ==> r.tuplets[0].ttype == Some("stop"))
  {
    var n, nb := PyInt(t.num).value, PyInt(t.numbase).value;
    var scaled := AppendTuplet(e, n, nb).value;
    assert ScaleEvent(e, t) == Ok(TypeFirstTuplet(scaled, t));
  }

  // ---------------------------------------------------------------- in-place results

  /** The contents an in-place pass leaves behind, and the error that stopped it, if any. */
  datatype Outcome = Outcome(events: seq<Event>, error: Option<Error>)

  /** The Result a method reports for an outcome. */
  function Status(o: Outcome): Result<()> {
    if o.error.Some? then Err(o.error.value) else Ok(())
  }

  /**
   * `scaleToTuplet` on a list: every object scaled; since each object parses the same
   * attributes, the first object with a duration fails before anything is changed.
   */
  function ScaleAll(s: seq<Event>, t: TupletAttrs): (o: Outcome)
    ensures |o.events| == |s|
    decreases |s|
  {
    if |s| == 0 then Outcome([], None)
    else
      match ScaleEvent(s[0], t)
      case Err(e) => Outcome(s, Some(e))
      case Ok(first) =>
        var rest := ScaleAll(s[1..], t);
        if rest.error.Some? then Outcome(s, rest.error) else Outcome([first] + rest.events, None)
  }

  /** A failing scale leaves the list as it was; a successful one scales every object in place. */
  lemma {:induction false} ScaleAllMeaning(s: seq<Event>, t: TupletAttrs)
    ensures ScaleAll(s, t).error.Some? ==> ScaleAll(s, t).events == s
    ensures ScaleAll(s, t).error.Some? ==>
      exists i :: 0 <= i < |s| && ScaleEvent(s[i], t).Err? && ScaleAll(s, t).error == Some(ScaleEvent(s[i], t).error)
    ensures ScaleAll(s, t).error.None? <==> forall i :: 0 <= i < |s| ==> ScaleEvent(s[i], t).Ok?
    ensures ScaleAll(s, t).error.None? ==>
      forall i :: 0 <= i < |s| ==> ScaleAll(s, t).events[i] == ScaleEvent(s[i], t).value
    decreases |s|
  {
    if |s| > 0 {
      ScaleAllMeaning(s[1..], t);
      if ScaleEvent(s[0], t).Ok? && ScaleAll(s[1..], t).error.Some? {
        var i :| 0 <= i < |s[1..]| && ScaleEvent(s[1..][i], t).Err?
          && ScaleAll(s[1..], t).error == Some(ScaleEvent(s[1..][i], t).error);
        assert s[1..][i] == s[i + 1];
      }
      if ScaleAll(s, t).error.None? {
        forall i | 0 <= i < |s|
          ensures ScaleEvent(s[i], t).Ok? && ScaleAll(s, t).events[i] == ScaleEvent(s[i], t).value
        {
          if i > 0 {
            assert s[i] == s[1..][i - 1];
          }
        }
      }
    }
  }

  /** The parse failure, if any, happens at the first object with a duration, for every such object alike. */
  lemma ScaleEventFailsAlike(e1: Event, e2: Event, t: TupletAttrs)
    requires HasDuration(e1.kind) && HasDuration(e2.kind)
    ensures ScaleEvent(e1, t).Ok? <==> ScaleEvent(e2, t).Ok?
    ensures ScaleEvent(e1, t).Err? ==> ScaleEvent(e1, t).error == ScaleEvent(e2, t).error
  {
  }

  /** `scaleToTuplet(objs, elem)` on the objects of a list, in place. */
  method ScaleToTuplet(a: array<Event>, t: TupletAttrs) returns (r: Result<()>)
    modifies a
    ensures a[..] == ScaleAll(old(a[..]), t).events
    ensures r == Status(ScaleAll(old(a[..]), t))
  {
    ghost var s := a[..];
    ScaleAllMeaning(s, t);
    var i := 0;
    while i < a.Length
      invariant 0 <= i <= a.Length
      invariant forall k :: 0 <= k < i ==> ScaleEvent(s[k], t).Ok? && a[k] == ScaleEvent(s[k], t).value
      invariant forall k :: i <= k < a.Length ==> a[k] == s[k]
    {
      var scaled := ScaleEvent(a[i], t);
      if scaled.Err? {
        // every object before this one had no duration, so nothing has changed yet
        forall k | 0 <= k < i
          ensures a[k] == s[k]
        {
          if HasDuration(s[k].kind) {
            ScaleEventFailsAlike(s[k], s[i], t);
          }
        }
        assert a[..] == s;
        ghost var j :| 0 <= j < |s| && ScaleEvent(s[j], t).Err? && ScaleAll(s, t).error == Some(ScaleEvent(s[j], t).error);
        assert j >= i;
        ScaleEventFailsAlike(s[j], s[i], t);
        return Err(scaled.error);
      }
      a[i] := scaled.value;
      i := i + 1;
    }
    assert a[..] == ScaleAll(s, t).events;
    r := Ok(());
  }

  // ---------------------------------------------------------------- _guessTuplets

  /** The object carries the search mark `role`. */
  predicate IsSearch(e: Event, role: string) {
    e.search.Some? && e.search.value.role == role
  }

  /** The scan's state: inside a tuplet, and the counts read at its start. */
  datatype GuessState = GuessState(inTuplet: bool, num: int, numbase: int)

  /** One object of the scan: the state after it, the object as left, and the error that stopped the scan. */
  datatype GuessStep = GuessStep(st: GuessState, e: Event, error: Option<Error>)

  /** An object inside a tuplet gains its tuplet; the 'end' object closes it with a 'stop'. */
  function GuessInTuplet(g: GuessState, e: Event): GuessStep {
    match AppendTuplet(e, g.num, g.numbase)
    case Err(err) => GuessStep(g, e, Some(err))
    case Ok(scaled) =>
      if IsSearch(scaled, "end") then
        GuessStep(g.(inTuplet := false), SetFirstTupletType(scaled, "stop").(search := None), None)
      else GuessStep(g, scaled, None)
  }

  function GuessOne(g: GuessState, e: Event): GuessStep {
    if !HasDuration(e.kind) then GuessStep(g, e, None)
    else if IsSearch(e, "start") then
      var n := PyInt(e.search.value.num);
      var nb := PyInt(e.search.value.numbase);
      if n.Err? then GuessStep(g, e, Some(n.error))
      else if nb.Err? then GuessStep(g, e, Some(nb.error))
      else GuessInTuplet(GuessState(true, n.value, nb.value), e.(search := None))
    else if g.inTuplet then GuessInTuplet(g, e)
    else GuessStep(g, e, None)
  }

  /** The scan over a list so far: the state, the objects already visited (as left), and the error. */
  datatype GuessRun = GuessRun(st: GuessState, done: seq<Event>, error: Option<Error>)

  function GuessPrefix(s: seq<Event>): (r: GuessRun)
    ensures |r.done| <= |s|
    ensures r.error.None? ==> |r.done| == |s|
    decreases |s|
  {
    if |s| == 0 then GuessRun(GuessState(false, 0, 0), [], None)
    else
      var r := GuessPrefix(s[..|s| - 1]);
      if r.error.Some? then r
      else
        var step := GuessOne(r.st, s[|s| - 1]);
        GuessRun(step.st, r.done + [step.e], step.error)
  }

  /** What `_guessTuplets` leaves in the list: the visited objects, then the rest untouched. */
  function GuessOutcome(s: seq<Event>): (o: Outcome)
    ensures |o.events| == |s|
  {
    var r := GuessPrefix(s);
    Outcome(r.done + s[|r.done|..], r.error)
  }

  lemma GuessPrefixStep(s: seq<Event>, k: nat)
    requires k < |s|
    ensures GuessPrefix(s[..k + 1]) ==
      var r := GuessPrefix(s[..k]);
      if r.error.Some? then r
      else GuessRun(GuessOne(r.st, s[k]).st, r.done + [GuessOne(r.st, s[k]).e], GuessOne(r.st, s[k]).error)
  {
    assert s[..k + 1][..k] == s[..k];
  }

  /** Once the scan has failed, later objects change nothing. */
  lemma {:induction false} GuessAfterError(s: seq<Event>, k: nat)
    requires k <= |s|
    requires GuessPrefix(s[..k]).error.Some?
    ensures GuessPrefix(s) == GuessPrefix(s[..k])
    decreases |s|
  {
    if k == |s| {
      assert s[..k] == s;
    } else {
      var init := s[..|s| - 1];
      assert init[..k] == s[..k];
      GuessAfterError(init, k);
    }
  }

  /** The loop body of `_guessTuplets` for one object, given the scan's state. */
  method GuessVisit(g: GuessState, e0: Event) returns (g': GuessState, e: Event, err: Option<Error>)
    ensures GuessStep(g', e, err) == GuessOne(g, e0)
  {
    g', e, err := g, e0, None;
    if !HasDuration(e.kind) {
      return;
    }
    if IsSearch(e, "start") {
      var n := PyInt(e.search.value.num);
      var nb := PyInt(e.search.value.numbase);
      if n.Err? || nb.Err? {
        err := Some(if n.Err? then n.error else nb.error);
        return;
      }
      g' := GuessState(true, n.value, nb.value);
      e := e.(search := None);
    }
    if g'.inTuplet {
      var scaled := AppendTuplet(e, g'.num, g'.numbase);
      if scaled.Err? {
        err := Some(scaled.error);
        return;
      }
      e := scaled.value;
      if IsSearch(e, "end") {
        e := SetFirstTupletType(e, "stop").(search := None);
        g' := g'.(inTuplet := false);
      }
    }
  }

  /** `_guessTuplets(theLayer)`, in place. */
  method GuessTuplets(a: array<Event>) returns (r: Result<()>)
    modifies a
    ensures a[..] == GuessOutcome(old(a[..])).events
    ensures r == Status(GuessOutcome(old(a[..])))
  {
    ghost var s := a[..];
    var g := GuessState(false, 0, 0);
    var err: Option<Error> := None;
    var i := 0;
    while i < a.Length && err.None?
      invariant 0 <= i <= a.Length
      invariant GuessPrefix(s[..i]) == GuessRun(g, a[..i], err)
      invariant a[i..] == s[i..]
    {
      GuessPrefixStep(s, i);
      var e;
      g, e, err := GuessVisit(g, a[i]);
      ghost var before := a[..];
      a[i] := e;
      assert a[..] == before[i := e];
      UpdateSplit(before, s, i, e);
      i := i + 1;
    }
    GuessOutcomeOf(s, i);
    assert a[..] == a[..i] + s[i..];
    r := if err.None? then Ok(()) else Err(err.value);
  }

  /** The outcome of the scan, read off when the scan has failed or has visited every object. */
  lemma GuessOutcomeOf(s: seq<Event>, k: nat)
    requires k <= |s|
    requires GuessPrefix(s[..k]).error.Some? || k == |s|
    requires |GuessPrefix(s[..k]).done| == k
    ensures var r := GuessPrefix(s[..k]);
      GuessOutcome(s) == Outcome(r.done + s[k..], r.error)
  {
    if k == |s| {
      assert s[..k] == s;
    } else {
      GuessAfterError(s, k);
    }
  }

  // ---------------------------------------------------------------- what the scan does

  /** The object opens a search span whose counts parse, with a nonzero actual count. */
  predicate OpensSpan(e: Event) {
    && HasDuration(e.kind) && IsSearch(e, "start")
    && PyInt(e.search.value.num).Ok? && PyInt(e.search.value.numbase).Ok?
    && PyInt(e.search.value.num).value != 0
  }

  /** An object met inside a span: those with a duration gain the span's tuplet. */
  function InSpan(e: Event, n: int, nb: int): Event
    requires n != 0
  {
    if HasDuration(e.kind) then AppendTuplet(e, n, nb).value else e
  }

  /** No object strictly between `i` and `k` carries a search mark the scan reacts to. */
  predicate QuietBetween(s: seq<Event>, i: int, k: int)
    requires 0 <= i && k <= |s|
  {
    forall m :: i < m < k && HasDuration(s[m].kind) ==> !IsSearch(s[m], "start") && !IsSearch(s[m], "end")
  }

  lemma {:induction false} GuessThrough(s: seq<Event>, i: nat, k: nat)
    requires i < k <= |s| && OpensSpan(s[i])
    requires GuessPrefix(s[..i]).error.None?
    requires QuietBetween(s, i, k)
    ensures var n, nb := PyInt(s[i].search.value.num).value, PyInt(s[i].search.value.numbase).value;
      var r := GuessPrefix(s[..k]);
      && r.error.None? && r.st == GuessState(true, n, nb) && |r.done| == k
      && r.done[..i] == GuessPrefix(s[..i]).done
      && r.done[i] == AppendTuplet(s[i].(search := None), n, nb).value
      && forall m :: i < m < k ==> r.done[m] == InSpan(s[m], n, nb)
    decreases k
  {
    var n, nb := PyInt(s[i].search.value.num).value, PyInt(s[i].search.value.numbase).value;
    GuessPrefixStep(s, k - 1);
    var prev, r := GuessPrefix(s[..k - 1]), GuessPrefix(s[..k]);
    if k == i + 1 {
      GuessOpenStep(prev.st, s[i]);
      var x := AppendTuplet(s[i].(search := None), n, nb).value;
      assert r.done == prev.done + [x];
      assert |prev.done| == i;
      assert r.done[i] == x && r.done[..i] == prev.done;
    } else {
      GuessThrough(s, i, k - 1);
      assert |prev.done| == k - 1;
      GuessQuietStep(n, nb, s[k - 1]);
      SpanExtends(prev.done, r.done, s, i, k, n, nb);
    }
  }

  /** Appending the next object of a span, as the scan leaves it, keeps the span's description. */
  lemma SpanExtends(prev: seq<Event>, done: seq<Event>, s: seq<Event>, i: nat, k: nat, n: int, nb: int)
    requires n != 0 && i + 1 < k <= |s| && |prev| == k - 1
    requires done == prev + [InSpan(s[k - 1], n, nb)]
    requires forall m :: i < m < k - 1 ==> prev[m] == InSpan(s[m], n, nb)
    ensures done[..i] == prev[..i] && done[i] == prev[i]
    ensures forall m :: i < m < k ==> done[m] == InSpan(s[m], n, nb)
  {
    forall m | i < m < k
      ensures done[m] == InSpan(s[m], n, nb)
    {
      if m < k - 1 {
        assert done[m] == prev[m];
      }
    }
  }

  /** The object marked 'start' opens the span with its counts and gains its tuplet. */
  lemma GuessOpenStep(g: GuessState, e: Event)
    requires OpensSpan(e)
    ensures var n, nb := PyInt(e.search.value.num).value, PyInt(e.search.value.numbase).value;
      GuessOne(g, e) == GuessStep(GuessState(true, n, nb), AppendTuplet(e.(search := None), n, nb).value, None)
  {
  }

  /** Inside a span, an object without a mark gains the span's tuplet and the span stays open. */
  lemma GuessQuietStep(n: int, nb: int, e: Event)
    requires n != 0
    requires HasDuration(e.kind) ==> !IsSearch(e, "start") && !IsSearch(e, "end")
    ensures GuessOne(GuessState(true, n, nb), e) == GuessStep(GuessState(true, n, nb), InSpan(e, n, nb), None)
  {
  }

  /**
   * Between an object marked 'start' and the next object marked 'end', with no other mark
   * in between, every Note, Rest and Chord gains one tuplet of the counts recorded at the
   * start; the 'end' object's first tuplet becomes a 'stop'; both lose their search marks;
   * other objects are untouched, and the scan leaves the tuplet.
   */
  lemma GuessSpan(s: seq<Event>, i: nat, j: nat)
    requires i < j < |s| && OpensSpan(s[i])
    requires HasDuration(s[j].kind) && IsSearch(s[j], "end")
    requires QuietBetween(s, i, j)
    requires GuessPrefix(s[..i]).error.None?
    ensures var n, nb := PyInt(s[i].search.value.num).value, PyInt(s[i].search.value.numbase).value;
      var r := GuessPrefix(s[..j + 1]);
      && r.error.None? && !r.st.inTuplet && |r.done| == j + 1
      && r.done[..i] == GuessPrefix(s[..i]).done
      && r.done[i] == AppendTuplet(s[i].(search := None), n, nb).value
      && (forall m :: i < m < j ==> r.done[m] == InSpan(s[m], n, nb))
      && r.done[j] == SetFirstTupletType(AppendTuplet(s[j], n, nb).value, "stop").(search := None)
      && r.done[i].search.None? && r.done[j].search.None?
      && r.done[j].tuplets[0].ttype == Some("stop")
  {
    GuessThrough(s, i, j);
    GuessPrefixStep(s, j);
  }

  /**
   * Outside a tuplet, objects before the next 'start' mark are copied unchanged and the scan
   * stays outside.
   */
  lemma {:induction false} GuessIdle(s: seq<Event>, lo: nat, hi: nat)
    requires lo <= hi <= |s|
    requires GuessPrefix(s[..lo]).error.None? && !GuessPrefix(s[..lo]).st.inTuplet
    requires forall m :: lo <= m < hi && HasDuration(s[m].kind) ==> !IsSearch(s[m], "start")
    ensures GuessPrefix(s[..hi]) == GuessRun(GuessPrefix(s[..lo]).st, GuessPrefix(s[..lo]).done + s[lo..hi], None)
    decreases hi
  {
    if hi == lo {
      assert s[lo..hi] == [];
    } else {
      GuessIdle(s, lo, hi - 1);
      GuessPrefixStep(s, hi - 1);
      assert s[lo..hi] == s[lo..hi - 1] + [s[hi - 1]];
    }
  }

  /** A list without any 'start' mark is left exactly as it was. */
  lemma GuessWithoutStart(s: seq<Event>)
    requires forall m :: 0 <= m < |s| && HasDuration(s[m].kind) ==> !IsSearch(s[m], "start")
    ensures GuessOutcome(s) == Outcome(s, None)
  {
    assert s[..0] == [];
    GuessIdle(s, 0, |s|);
    assert s[..|s|] == s;
    assert s[0..|s|] == s;
  }

  // ---------------------------------------------------------------- beamTogether

  /** A note or chord finer than a quarter that has no beams yet: the objects `beamTogether` beams. */
  predicate Eligible(e: Event) {
    HasBeams(e.kind) && e.flags > 0 && |e.beams| == 0
  }

  /** `Beams.fill`: one beam per flag of the type, all of the same kind. */
  function Fill(n: nat, t: string): (r: seq<string>)
    ensures |r| == n && forall k :: 0 <= k < n ==> r[k] == t
  {
    seq(n, _ => t)
  }

  /** `Beams.setAll`: every existing beam becomes `t`. */
  function SetAll(beams: seq<string>, t: string): (r: seq<string>)
    ensures |r| == |beams| && forall k :: 0 <= k < |r| ==> r[k] == t
  {
    seq(|beams|, _ => t)
  }

  /** Position of the last eligible object, or -1 when there is none (`iLastBeamedNote`). */
  function LastEligible(s: seq<Event>): (r: int)
    ensures -1 <= r < |s|
    ensures r >= 0 ==> Eligible(s[r]) && forall k :: r < k < |s| ==> !Eligible(s[k])
    ensures r == -1 ==> forall k :: 0 <= k < |s| ==> !Eligible(s[k])
    decreases |s|
  {
    if |s| == 0 then -1
    else if Eligible(s[|s| - 1]) then |s| - 1
    else LastEligible(s[..|s| - 1])
  }

  /** The fill loop: each eligible object gets beams, 'start' when no eligible object precedes it, else 'continue'. */
  function BeamFill(s: seq<Event>): (r: seq<Event>)
    ensures |r| == |s|
    decreases |s|
  {
    if |s| == 0 then []
    else
      var init, last := s[..|s| - 1], s[|s| - 1];
      BeamFill(init) + [if Eligible(last)
                        then last.(beams := Fill(last.flags, if LastEligible(init) == -1 then "start" else "continue"))
                        else last]
  }

  /** The documented behaviour of `beamTogether`: fill, then the last beamed object stops; nothing to beam, nothing done. */
  function BeamTogetherSpec(s: seq<Event>): (r: seq<Event>)
    ensures |r| == |s|
  {
    var f := BeamFill(s);
    var k := LastEligible(s);
    if k == -1 then f else f[k := f[k].(beams := SetAll(f[k].beams, "stop"))]
  }

  /**
   * `beamTogether` as written: with no eligible object, `someThings[-1]` is the last object,
   * so an empty list is an IndexError, a last object without beams an AttributeError, and
   * the beams of a last note already beamed are all set to 'stop'.
   */
  function BeamTogetherAsWritten(s: seq<Event>): (o: Outcome)
    ensures |o.events| == |s|
  {
    var f := BeamFill(s);
    var k := LastEligible(s);
    var at := if k == -1 then |s| - 1 else k;
    if at < 0 then Outcome(f, Some(PyError(IndexError)))
    else if !HasBeams(f[at].kind) then Outcome(f, Some(PyError(AttributeError)))
    else Outcome(f[at := f[at].(beams := SetAll(f[at].beams, "stop"))], None)
  }

  lemma {:induction false} BeamFillAt(s: seq<Event>, k: nat)
    requires k < |s|
    ensures BeamFill(s)[k] ==
      if Eligible(s[k])
      then s[k].(beams := Fill(s[k].flags, if LastEligible(s[..k]) == -1 then "start" else "continue"))
      else s[k]
    decreases |s|
  {
    if k < |s| - 1 {
      var init := s[..|s| - 1];
      BeamFillAt(init, k);
      assert init[..k] == s[..k];
      assert BeamFill(s)[k] == BeamFill(init)[k];
    }
  }

  /**
   * `beamTogether` fills the first eligible note or chord with 'start' beams, every later one
   * with 'continue', and sets the last one's beams to 'stop'; every other object, including
   * rests, quarters and notes that already had beams, is unchanged.
   */
  lemma BeamTogetherMeaning(s: seq<Event>, k: nat)
    requires k < |s|
    ensures var r := BeamTogetherSpec(s);
      && (!Eligible(s[k]) ==> r[k] == s[k])
      && (Eligible(s[k]) && k == LastEligible(s) ==> r[k] == s[k].(beams := Fill(s[k].flags, "stop")))
      && (Eligible(s[k]) && k != LastEligible(s) && (forall m :: 0 <= m < k ==> !Eligible(s[m])) ==>
            r[k] == s[k].(beams := Fill(s[k].flags, "start")))
      && (Eligible(s[k]) && k != LastEligible(s) && (exists m :: 0 <= m < k && Eligible(s[m])) ==>
            r[k] == s[k].(beams := Fill(s[k].flags, "continue")))
  {
    BeamFillAt(s, k);
    var pre := s[..k];
    if LastEligible(pre) != -1 {
      assert Eligible(s[LastEligible(pre)]);
    }
    if exists m :: 0 <= m < k && Eligible(s[m]) {
      var m :| 0 <= m < k && Eligible(s[m]);
      assert Eligible(pre[m]);
    }
    if Eligible(s[k]) && k == LastEligible(s) {
      var f := BeamFill(s)[k];
      assert SetAll(f.beams, "stop") == Fill(s[k].flags, "stop");
    }
  }

  /** Only beams change. */
  lemma BeamTogetherOnlyBeams(s: seq<Event>)
    ensures forall k :: 0 <= k < |s| ==> BeamTogetherSpec(s)[k] == s[k].(beams := BeamTogetherSpec(s)[k].beams)
  {
    forall k | 0 <= k < |s|
      ensures BeamTogetherSpec(s)[k] == s[k].(beams := BeamTogetherSpec(s)[k].beams)
    {
      BeamFillAt(s, k);
    }
  }

  /** A tuplet of quarter notes ending in a rest: nothing is eligible and, as written, the rest has no beams. */
  lemma BeamTogetherAsWrittenFailsOnRest()
    ensures var q := Event(Note, 0, 1.0, [], [], None, false);
      var rest := Event(Rest, 0, 1.0, [], [], None, false);
      && BeamTogetherAsWritten([q, q, rest]).error == Some(PyError(AttributeError))
      && BeamTogetherSpec([q, q, rest]) == [q, q, rest]
  {
    var q := Event(Note, 0, 1.0, [], [], None, false);
    var rest := Event(Rest, 0, 1.0, [], [], None, false);
    var s := [q, q, rest];
    assert LastEligible(s) == -1;
    BeamFillAt(s, 0);
    BeamFillAt(s, 1);
    BeamFillAt(s, 2);
    assert BeamFill(s) == s;
  }

  /** `beamTogether(someThings)`, in place, with the last beamed object stopped only when there is one. */
  method BeamTogether(a: array<Event>)
    modifies a
    ensures a[..] == BeamTogetherSpec(old(a[..]))
  {
    var iLast := FillBeams(a);
    if iLast != -1 {
      a[iLast] := a[iLast].(beams := SetAll(a[iLast].beams, "stop"));
    }
  }

  /** The first loop of `beamTogether`: fills the eligible objects and finds the last of them. */
  method FillBeams(a: array<Event>) returns (iLast: int)
    modifies a
    ensures a[..] == BeamFill(old(a[..]))
    ensures iLast == LastEligible(old(a[..]))
  {
    ghost var s := a[..];
    iLast := -1;
    var i := 0;
    while i < a.Length
      invariant 0 <= i <= a.Length
      invariant iLast == LastEligible(s[..i])
      invariant a[..i] == BeamFill(s[..i])
      invariant a[i..] == s[i..]
    {
      BeamFillStep(s, i);
      ghost var before := a[..];
      assert before[i] == s[i];
      if HasBeams(a[i].kind) {
        var beamType := if iLast == -1 then "start" else "continue";
        if a[i].flags > 0 && |a[i].beams| == 0 {
          a[i] := a[i].(beams := Fill(a[i].flags, beamType));
          iLast := i;
        }
      }
      assert a[..] == before[i := a[i]];
      UpdateSplit(before, s, i, a[i]);
      i := i + 1;
    }
    assert s[..i] == s;
    assert a[..] == a[..i];
  }

  /** One more object of the fill loop. */
  lemma BeamFillStep(s: seq<Event>, i: nat)
    requires i < |s|
    ensures BeamFill(s[..i + 1]) == BeamFill(s[..i]) +
      [if Eligible(s[i]) then s[i].(beams := Fill(s[i].flags, if LastEligible(s[..i]) == -1 then "start" else "continue"))
       else s[i]]
    ensures LastEligible(s[..i + 1]) == if Eligible(s[i]) then i else LastEligible(s[..i])
  {
    assert s[..i + 1][..i] == s[..i];
  }

  // ---------------------------------------------------------------- tupletFromElement

  const MissingTupletData := "Both @num and @numbase attributes are required on <tuplet> tags."

  /** Position of the first GeneralNote. */
  function FirstGeneral(s: seq<Event>): (r: Option<nat>)
    ensures r.Some? ==> (r.value < |s| && HasDuration(s[r.value].kind)
      && forall k :: 0 <= k < r.value ==> !HasDuration(s[k].kind))
    ensures r.None? ==> forall k :: 0 <= k < |s| ==> !HasDuration(s[k].kind)
    decreases |s|
  {
    if |s| == 0 then None
    else if HasDuration(s[0].kind) then Some(0)
    else match FirstGeneral(s[1..]) case None => None case Some(k) => Some(k + 1)
  }

  /** Position of the last GeneralNote. */
  function LastGeneral(s: seq<Event>): (r: Option<nat>)
    ensures r.Some? ==> (r.value < |s| && HasDuration(s[r.value].kind)
      && forall k :: r.value < k < |s| ==> !HasDuration(s[k].kind))
    ensures r.None? ==> forall k :: 0 <= k < |s| ==> !HasDuration(s[k].kind)
    decreases |s|
  {
    if |s| == 0 then None
    else if HasDuration(s[|s| - 1].kind) then Some(|s| - 1)
    else LastGeneral(s[..|s| - 1])
  }

  /**
   * The loop of `tupletFromElement` that finds the first GeneralNote and the last one after
   * it; when there is only one, `last` stays None and the first one is also the last.
   */
  method FindFirstLast(a: array<Event>) returns (first: Option<nat>, last: Option<nat>)
    ensures first == FirstGeneral(a[..])
    ensures last.Some? ==> first.Some? && first.value < last.value && last == LastGeneral(a[..])
    ensures last.None? ==> first == LastGeneral(a[..])
  {
    first, last := None, None;
    var i := 0;
    while i < a.Length
      invariant 0 <= i <= a.Length
      invariant first.None? ==> (last.None? && forall k :: 0 <= k < i ==> !HasDuration(a[k].kind))
      invariant first.Some? ==> (first.value < i && HasDuration(a[first.value].kind)
        && forall k :: 0 <= k < first.value ==> !HasDuration(a[k].kind))
      invariant last.Some? ==> (first.Some? && first.value < last.value < i && HasDuration(a[last.value].kind)
        && forall k :: last.value < k < i ==> !HasDuration(a[k].kind))
      invariant first.Some? && last.None? ==> forall k :: first.value < k < i ==> !HasDuration(a[k].kind)
    {
      if first.None? && HasDuration(a[i].kind) {
        first := Some(i);
      } else if HasDuration(a[i].kind) {
        last := Some(i);
      }
      i := i + 1;
    }
    GeneralUnique(a[..], first, last);
  }

  /** The first and last GeneralNote are determined by their defining properties. */
  lemma {:induction false} GeneralUnique(s: seq<Event>, first: Option<nat>, last: Option<nat>)
    requires first.None? ==> (last.None? && forall k :: 0 <= k < |s| ==> !HasDuration(s[k].kind))
    requires first.Some? ==> (first.value < |s| && HasDuration(s[first.value].kind)
      && forall k :: 0 <= k < first.value ==> !HasDuration(s[k].kind))
    requires last.Some? ==> (first.Some? && first.value < last.value < |s| && HasDuration(s[last.value].kind)
      && forall k :: last.value < k < |s| ==> !HasDuration(s[k].kind))
    requires first.Some? && last.None? ==> forall k :: first.value < k < |s| ==> !HasDuration(s[k].kind)
    ensures first == FirstGeneral(s)
    ensures last.Some? ==> last == LastGeneral(s)
    ensures last.None? ==> first == LastGeneral(s)
  {
  }

  /** The attributes of the element `tupletFromElement` hands to `scaleToTuplet`. */
  function TupletElem(num: Option<string>, numbase: Option<string>): TupletAttrs {
    TupletAttrs(None, num, numbase, None, None)
  }

  /** One object after `tupletFromElement` scales it: GeneralNotes gain a tuplet of num in numbase. */
  lemma {:induction false} ScaledAt(s: seq<Event>, num: Option<string>, numbase: Option<string>, k: nat)
    requires ScaleAll(s, TupletElem(num, numbase)).error.None? && k < |s|
    ensures ScaleAll(s, TupletElem(num, numbase)).events[k].kind == s[k].kind
    ensures !HasDuration(s[k].kind) ==> ScaleAll(s, TupletElem(num, numbase)).events[k] == s[k]
    ensures HasDuration(s[k].kind) ==> PyInt(num).Ok? && PyInt(numbase).Ok? && PyInt(num).value != 0
    ensures HasDuration(s[k].kind) ==>
      var r := ScaleAll(s, TupletElem(num, numbase)).events[k];
      var n, nb := PyInt(num).value, PyInt(numbase).value;
      r == s[k].(ql := r.ql, tuplets := s[k].tuplets + [Tuplet(n, nb, None)]) && r.ql == ScaledLength(s[k].ql, n, nb)
  {
    var t := TupletElem(num, numbase);
    ScaleAllMeaning(s, t);
    assert ScaleEvent(s[k], t).Ok?;
    ScaleEventMeaning(s[k], t);
    if HasDuration(s[k].kind) {
      var n, nb := PyInt(num).value, PyInt(numbase).value;
      assert ScaleEvent(s[k], t) == AppendTuplet(s[k], n, nb);
    }
  }

  /** Scaling keeps every object's kind, so the first and last GeneralNote stay where they were. */
  lemma {:induction false} ScaledKinds(s: seq<Event>, num: Option<string>, numbase: Option<string>)
    requires ScaleAll(s, TupletElem(num, numbase)).error.None?
    ensures FirstGeneral(ScaleAll(s, TupletElem(num, numbase)).events) == FirstGeneral(s)
    ensures LastGeneral(ScaleAll(s, TupletElem(num, numbase)).events) == LastGeneral(s)
  {
    var sc := ScaleAll(s, TupletElem(num, numbase)).events;
    forall k | 0 <= k < |s| ensures sc[k].kind == s[k].kind {
      ScaledAt(s, num, numbase, k);
    }
    var f, l := FirstGeneral(s), LastGeneral(s);
    var last := if f.Some? && l.Some? && f.value < l.value then l else None;
    GeneralUnique(sc, f, last);
  }

  /** The members after scaling, the first GeneralNote marked 'start' and then the last one 'stop'. */
  function MarkStartStop(s: seq<Event>, num: Option<string>, numbase: Option<string>): (r: seq<Event>)
    requires ScaleAll(s, TupletElem(num, numbase)).error.None? && FirstGeneral(s).Some?
    ensures |r| == |s|
  {
    var sc := ScaleAll(s, TupletElem(num, numbase)).events;
    var f := FirstGeneral(s).value;
    var l := LastGeneral(s).value;
    ScaledAt(s, num, numbase, f);
    ScaledAt(s, num, numbase, l);
    var started := sc[f := SetFirstTupletType(sc[f], "start")];
    started[l := SetFirstTupletType(started[l], "stop")]
  }

  /** The start/stop logic of `tupletFromElement` on its converted members. */
  function TupletSpec(s: seq<Event>, num: Option<string>, numbase: Option<string>): (o: Outcome)
    ensures |o.events| == |s|
  {
    if num.None? || numbase.None? then Outcome(s, Some(MeiAttributeError(MissingTupletData)))
    else
      var sc := ScaleAll(s, TupletElem(num, numbase));
      if sc.error.Some? then sc
      // `firstNote` stays None, and indexing with None is a TypeError
      else if FirstGeneral(s).None? then Outcome(sc.events, Some(PyError(TypeError)))
      else Outcome(BeamTogetherSpec(MarkStartStop(s, num, numbase)), None)
  }

  /** Both counts are required: without one, nothing is converted or changed. */
  lemma TupletSpecMissing(s: seq<Event>, num: Option<string>, numbase: Option<string>)
    requires num.None? || numbase.None?
    ensures TupletSpec(s, num, numbase) == Outcome(s, Some(MeiAttributeError(MissingTupletData)))
  {
  }

  /** Members without a GeneralNote fail after scaling. */
  lemma {:induction false} TupletSpecNoNote(s: seq<Event>, num: Option<string>, numbase: Option<string>)
    requires num.Some? && numbase.Some?
    requires forall k :: 0 <= k < |s| ==> !HasDuration(s[k].kind)
    ensures TupletSpec(s, num, numbase) == Outcome(s, Some(PyError(TypeError)))
  {
    var t := TupletElem(num, numbase);
    forall k | 0 <= k < |s| ensures ScaleEvent(s[k], t) == Ok(s[k]) {
      ScaleEventMeaning(s[k], t);
    }
    ScaleAllMeaning(s, t);
    assert ScaleAll(s, t).events == s;
  }

  /**
   * `tupletFromElement` on one member that converted: every GeneralNote is scaled by
   * numbase/num and gains that tuplet; other objects keep their length and tuplets;
   * the beams are whatever `beamTogether` makes of them.
   */
  lemma {:induction false} TupletSpecAt(s: seq<Event>, num: Option<string>, numbase: Option<string>, k: nat)
    requires TupletSpec(s, num, numbase).error.None? && k < |s|
    ensures PyInt(num).Ok? && PyInt(numbase).Ok? && PyInt(num).value != 0
    ensures FirstGeneral(s).Some? && LastGeneral(s).Some? && FirstGeneral(s).value <= LastGeneral(s).value
    ensures var r := TupletSpec(s, num, numbase).events[k];
      var n, nb := PyInt(num).value, PyInt(numbase).value;
      var f, l := FirstGeneral(s).value, LastGeneral(s).value;
      && r.kind == s[k].kind && r.search == s[k].search
      && (!HasDuration(s[k].kind) ==> r == s[k].(beams := r.beams))
      && (HasDuration(s[k].kind) ==> r.ql == ScaledLength(s[k].ql, n, nb))
      && (HasDuration(s[k].kind) ==> |r.tuplets| == |s[k].tuplets| + 1)
      && (HasDuration(s[k].kind) ==> r.tuplets[1..] == (s[k].tuplets + [Tuplet(n, nb, None)])[1..])
      && (HasDuration(s[k].kind) && k != f && k != l ==> r.tuplets == s[k].tuplets + [Tuplet(n, nb, None)])
      && (k == l ==> r.tuplets[0].ttype == Some("stop"))
      && (k == f && f != l ==> r.tuplets[0].ttype == Some("start"))
  {
    var sc := ScaleAll(s, TupletElem(num, numbase)).events;
    var f := FirstGeneral(s).value;
    ScaledAt(s, num, numbase, f);
    ScaledAt(s, num, numbase, k);
    MarkAt(s, num, numbase, k);
    var m := MarkStartStop(s, num, numbase);
    BeamTogetherOnlyBeams(m);
    assert TupletSpec(s, num, numbase).events[k] == m[k].(beams := TupletSpec(s, num, numbase).events[k].beams);
  }

  /** Marking changes only the first tuplet's type of the first and the last GeneralNote. */
  lemma {:induction false} MarkAt(s: seq<Event>, num: Option<string>, numbase: Option<string>, k: nat)
    requires ScaleAll(s, TupletElem(num, numbase)).error.None? && FirstGeneral(s).Some? && k < |s|
    ensures LastGeneral(s).Some? && FirstGeneral(s).value <= LastGeneral(s).value
    ensures var m, sc := MarkStartStop(s, num, numbase)[k], ScaleAll(s, TupletElem(num, numbase)).events[k];
      var f, l := FirstGeneral(s).value, LastGeneral(s).value;
      && m == sc.(tuplets := m.tuplets)
      && (k != f && k != l ==> m == sc)
      && ((k == f || k == l) ==> |sc.tuplets| > 0 && |m.tuplets| == |sc.tuplets| && m.tuplets[1..] == sc.tuplets[1..])
      && (k == l ==> m.tuplets[0].ttype == Some("stop"))
      && (k == f && f != l ==> m.tuplets[0].ttype == Some("start"))
  {
    var sc := ScaleAll(s, TupletElem(num, numbase)).events;
    var f, l := FirstGeneral(s).value, LastGeneral(s).value;
    ScaledAt(s, num, numbase, f);
    ScaledAt(s, num, numbase, l);
    var started := sc[f := SetFirstTupletType(sc[f], "start")];
    assert MarkStartStop(s, num, numbase) == started[l := SetFirstTupletType(started[l], "stop")];
  }

  /** `tupletFromElement(elem)` once its members are converted: the array holds the members. */
  method TupletFromElement(a: array<Event>, num: Option<string>, numbase: Option<string>) returns (r: Result<()>)
    modifies a
    ensures a[..] == TupletSpec(old(a[..]), num, numbase).events
    ensures r == Status(TupletSpec(old(a[..]), num, numbase))
  {
    ghost var s := a[..];
    if num.None? || numbase.None? {
      return Err(MeiAttributeError(MissingTupletData));
    }
    r := ScaleToTuplet(a, TupletElem(num, numbase));
    if r.Err? {
      return;
    }
    ScaledKinds(s, num, numbase);
    var first, last := FindFirstLast(a);
    if first.None? {
      return Err(PyError(TypeError));
    }
    var f := first.value;
    ScaledAt(s, num, numbase, f);
    a[f] := SetFirstTupletType(a[f], "start");
    var l := if last.None? then f else last.value;
    ScaledAt(s, num, numbase, l);
    a[l] := SetFirstTupletType(a[l], "stop");
    BeamTogether(a);
  }
}
