/**
 * The slur registry (a SpannerBundle holding only slurs) and `addSlurs`, which attaches a
 * converted note, chord or rest to the slurs its element names.
 */
module Spanners {
  import opened Wrappers
  import opened Strings

  /** Identity of a converted musical object (note, chord, rest) that a slur can span. */
  type ObjId = nat

  /** A slur: its local label and the objects it spans, in the order they were added. */
  datatype Slur = Slur(idLocal: string, spanned: seq<ObjId>)

  /** Adds `obj` to what a slur spans; an object already spanned is not added a second time. */
  function AddSpanned(s: Slur, obj: ObjId): (r: Slur)
    ensures r.idLocal == s.idLocal
    ensures s.spanned <= r.spanned && obj in r.spanned
    ensures forall o :: o in r.spanned ==> o in s.spanned || o == obj
  {
    if obj in s.spanned then s else s.(spanned := s.spanned + [obj])
  }

  /** Position of the first slur labelled `name` (what `getByIdLocal(name)[0]` picks). */
  function FindSlur(slurs: seq<Slur>, name: string): (r: Option<nat>)
    ensures r.Some? ==> r.value < |slurs| && slurs[r.value].idLocal == name
    ensures r.Some? ==> forall j :: 0 <= j < r.value ==> slurs[j].idLocal != name
    ensures r.None? ==> forall j :: 0 <= j < |slurs| ==> slurs[j].idLocal != name
    decreases |slurs|
  {
    if |slurs| == 0 then None
    else if slurs[0].idLocal == name then Some(0)
    else
      match FindSlur(slurs[1..], name)
      case None => None
      case Some(i) => Some(i + 1)
  }

  /**
   * Attaches `obj` to the first slur labelled `name` and reports true; when no slur has that
   * label nothing changes and the report is false.
   */
  function Attach(slurs: seq<Slur>, name: string, obj: ObjId): (r: (seq<Slur>, bool))
    ensures |r.0| == |slurs|
    ensures r.1 <==> exists i :: 0 <= i < |slurs| && slurs[i].idLocal == name
    ensures !r.1 ==> r.0 == slurs
    ensures r.1 ==> exists i :: 0 <= i < |slurs| && slurs[i].idLocal == name
                      && r.0 == slurs[i := AddSpanned(slurs[i], obj)]
  {
    match FindSlur(slurs, name)
    case None => (slurs, false)
    case Some(i) => (slurs[i := AddSpanned(slurs[i], obj)], true)
  }

  /**
   * The state of one `addSlurs` call: the registry, the flag as the code assigns it (the last
   * lookup decides), whether any slur was joined, and the error that stopped the call.
   */
  datatype SlurState = SlurState(slurs: seq<Slur>, added: bool, anyAdded: bool, error: Option<Error>)

  function Record(st: SlurState, step: (seq<Slur>, bool)): SlurState {
    st.(slurs := step.0, added := step.1, anyAdded := st.anyAdded || step.1)
  }

  /** One `@slur` token: two characters, label then role; 'i' opens a slur, 't' closes one. */
  function TokenStep(st: SlurState, token: string, obj: ObjId): SlurState {
    if st.error.Some? then st
    // unpacking a token that is not two characters long is a ValueError
    else if |token| != 2 then st.(error := Some(PyError(ValueError)))
    else if token[1] == 'i' then Record(st, (st.slurs + [Slur([token[0]], [obj])], true))
    else if token[1] == 't' then Record(st, Attach(st.slurs, [token[0]], obj))
    else st
  }

  /** The tokens processed left to right. */
  function TokensFold(st: SlurState, tokens: seq<string>, obj: ObjId): SlurState
    decreases |tokens|
  {
    if |tokens| == 0 then st
    else TokenStep(TokensFold(st, tokens[..|tokens| - 1], obj), tokens[|tokens| - 1], obj)
  }

  /** The state after the @m21SlurStart and @m21SlurEnd lookups, before any @slur token. */
  function LookupsState(slurs: seq<Slur>, attrs: map<string, string>, obj: ObjId): SlurState {
    var s0 := SlurState(slurs, false, false, None);
    var s1 := if "m21SlurStart" in attrs then Record(s0, Attach(s0.slurs, attrs["m21SlurStart"], obj)) else s0;
    if "m21SlurEnd" in attrs then Record(s1, Attach(s1.slurs, attrs["m21SlurEnd"], obj)) else s1
  }

  /** Everything `addSlurs` does for one element with attributes `attrs` and its object `obj`. */
  function SlurPass(slurs: seq<Slur>, attrs: map<string, string>, obj: ObjId): SlurState {
    var st := LookupsState(slurs, attrs, obj);
    if "slur" in attrs then TokensFold(st, Split(attrs["slur"], ' '), obj) else st
  }

  /** The value `addSlurs` returns as written: the outcome of the last lookup or token. */
  function AddSlursAsWritten(slurs: seq<Slur>, attrs: map<string, string>, obj: ObjId): Result<bool> {
    var st := SlurPass(slurs, attrs, obj);
    if st.error.Some? then Err(st.error.value) else Ok(st.added)
  }

  /** The value `addSlurs` documents: whether at least one slur was joined. */
  function AddSlursResult(slurs: seq<Slur>, attrs: map<string, string>, obj: ObjId): Result<bool> {
    var st := SlurPass(slurs, attrs, obj);
    if st.error.Some? then Err(st.error.value) else Ok(st.anyAdded)
  }

  // ---------------------------------------------------------------- what a call may change

  /**
   * `after` keeps every slur of `before` in place, under its label, extended at most by `obj`,
   * and every slur appended after them spans exactly `obj`.
   */
  predicate Extends(before: seq<Slur>, after: seq<Slur>, obj: ObjId) {
    && |before| <= |after|
    && (forall i :: 0 <= i < |before| ==> after[i] == before[i] || after[i] == AddSpanned(before[i], obj))
    && (forall i :: |before| <= i < |after| ==> after[i].spanned == [obj])
  }

  lemma ExtendsTransitive(a: seq<Slur>, b: seq<Slur>, c: seq<Slur>, obj: ObjId)
    requires Extends(a, b, obj) && Extends(b, c, obj)
    ensures Extends(a, c, obj)
  {
    forall i | 0 <= i < |a|
      ensures c[i] == a[i] || c[i] == AddSpanned(a[i], obj)
    {
      if b[i] != a[i] {
        assert AddSpanned(b[i], obj) == b[i];
      }
    }
    forall i | |a| <= i < |c|
      ensures c[i].spanned == [obj]
    {
      if i < |b| {
        assert AddSpanned(b[i], obj) == b[i];
      }
    }
  }

  lemma {:induction false} TokensFoldExtends(st: SlurState, tokens: seq<string>, obj: ObjId)
    ensures Extends(st.slurs, TokensFold(st, tokens, obj).slurs, obj)
    decreases |tokens|
  {
    if |tokens| > 0 {
      var mid := TokensFold(st, tokens[..|tokens| - 1], obj);
      TokensFoldExtends(st, tokens[..|tokens| - 1], obj);
      StepExtends(mid, tokens[|tokens| - 1], obj);
      ExtendsTransitive(st.slurs, mid.slurs, TokensFold(st, tokens, obj).slurs, obj);
    }
  }

  lemma StepExtends(st: SlurState, token: string, obj: ObjId)
    ensures Extends(st.slurs, TokenStep(st, token, obj).slurs, obj)
  {
    if st.error.None? && |token| == 2 && token[1] == 't' {
      AttachExtends(st.slurs, [token[0]], obj);
    }
  }

  lemma AttachExtends(slurs: seq<Slur>, name: string, obj: ObjId)
    ensures Extends(slurs, Attach(slurs, name, obj).0, obj)
  {
  }

  /** Once a token has failed, the remaining tokens change nothing. */
  lemma {:induction false} FoldAfterError(st: SlurState, tokens: seq<string>, i: nat, obj: ObjId)
    requires i <= |tokens|
    requires TokensFold(st, tokens[..i], obj).error.Some?
    ensures TokensFold(st, tokens, obj) == TokensFold(st, tokens[..i], obj)
    decreases |tokens|
  {
    if i == |tokens| {
      assert tokens[..i] == tokens;
    } else {
      var init := tokens[..|tokens| - 1];
      assert init[..i] == tokens[..i];
      FoldAfterError(st, init, i, obj);
    }
  }

  // ---------------------------------------------------------------- what the result means

  /** `obj` is spanned by one of the slurs. */
  predicate Joined(slurs: seq<Slur>, obj: ObjId) {
    exists i :: 0 <= i < |slurs| && obj in slurs[i].spanned
  }

  /** The state tells the truth about the call so far: joined when it says so, untouched when not. */
  predicate Honest(before: seq<Slur>, st: SlurState, obj: ObjId) {
    && Extends(before, st.slurs, obj)
    && (st.anyAdded ==> Joined(st.slurs, obj))
    && (!st.anyAdded ==> st.slurs == before)
  }

  lemma JoinedKept(a: seq<Slur>, b: seq<Slur>, obj: ObjId)
    requires Joined(a, obj) && Extends(a, b, obj)
    ensures Joined(b, obj)
  {
    var i :| 0 <= i < |a| && obj in a[i].spanned;
    assert obj in b[i].spanned;
  }

  lemma RecordHonest(before: seq<Slur>, st: SlurState, name: string, obj: ObjId)
    requires Honest(before, st, obj)
    ensures Honest(before, Record(st, Attach(st.slurs, name, obj)), obj)
  {
    var step := Attach(st.slurs, name, obj);
    var next := Record(st, step);
    AttachExtends(st.slurs, name, obj);
    ExtendsTransitive(before, st.slurs, next.slurs, obj);
    if step.1 {
      var i :| 0 <= i < |st.slurs| && st.slurs[i].idLocal == name
                && step.0 == st.slurs[i := AddSpanned(st.slurs[i], obj)];
      assert obj in next.slurs[i].spanned;
    } else if st.anyAdded {
      JoinedKept(st.slurs, next.slurs, obj);
    }
  }

  lemma StepHonest(before: seq<Slur>, st: SlurState, token: string, obj: ObjId)
    requires Honest(before, st, obj)
    ensures Honest(before, TokenStep(st, token, obj), obj)
  {
    if st.error.None? && |token| == 2 {
      if token[1] == 'i' {
        var next := TokenStep(st, token, obj);
        StepExtends(st, token, obj);
        ExtendsTransitive(before, st.slurs, next.slurs, obj);
        assert obj in next.slurs[|st.slurs|].spanned;
      } else if token[1] == 't' {
        RecordHonest(before, st, [token[0]], obj);
      }
    }
  }

  lemma {:induction false} FoldHonest(before: seq<Slur>, st: SlurState, tokens: seq<string>, obj: ObjId)
    requires Honest(before, st, obj)
    ensures Honest(before, TokensFold(st, tokens, obj), obj)
    decreases |tokens|
  {
    if |tokens| > 0 {
      FoldHonest(before, st, tokens[..|tokens| - 1], obj);
      StepHonest(before, TokensFold(st, tokens[..|tokens| - 1], obj), tokens[|tokens| - 1], obj);
    }
  }

  /**
   * `addSlurs` (with the documented result) only ever adds `obj` to slurs and appends slurs that
   * span just `obj`; it reports true exactly when `obj` ended up joined to a slur by this call,
   * and when it reports false the registry is unchanged.
   */
  lemma AddSlursResultMeaning(slurs: seq<Slur>, attrs: map<string, string>, obj: ObjId)
    ensures Extends(slurs, SlurPass(slurs, attrs, obj).slurs, obj)
    ensures AddSlursResult(slurs, attrs, obj) == Ok(true) ==> Joined(SlurPass(slurs, attrs, obj).slurs, obj)
    ensures AddSlursResult(slurs, attrs, obj) == Ok(false) ==> SlurPass(slurs, attrs, obj).slurs == slurs
  {
    var s0 := SlurState(slurs, false, false, None);
    assert Honest(slurs, s0, obj);
    var s1 := if "m21SlurStart" in attrs then Record(s0, Attach(s0.slurs, attrs["m21SlurStart"], obj)) else s0;
    if "m21SlurStart" in attrs {
      RecordHonest(slurs, s0, attrs["m21SlurStart"], obj);
    }
    var s2 := LookupsState(slurs, attrs, obj);
    if "m21SlurEnd" in attrs {
      RecordHonest(slurs, s1, attrs["m21SlurEnd"], obj);
    }
    if "slur" in attrs {
      FoldHonest(slurs, s2, Split(attrs["slur"], ' '), obj);
    }
  }

  // ---------------------------------------------------------------- slurs opened by @slur

  /** Labels of the opening ('i') tokens, in order. */
  function OpenLabels(tokens: seq<string>): (r: seq<string>)
    ensures |r| <= |tokens|
    decreases |tokens|
  {
    if |tokens| == 0 then []
    else
      var last := tokens[|tokens| - 1];
      OpenLabels(tokens[..|tokens| - 1]) + (if |last| == 2 && last[1] == 'i' then [[last[0]]] else [])
  }

  /**
   * When every token is well formed, each opening token appends one slur, labelled with the
   * token's first character and spanning just `obj`, in token order; closing tokens never
   * alter those new slurs.
   */
  lemma {:induction false} FoldOpens(st: SlurState, tokens: seq<string>, obj: ObjId)
    requires TokensFold(st, tokens, obj).error.None?
    ensures var r := TokensFold(st, tokens, obj).slurs;
      && |r| == |st.slurs| + |OpenLabels(tokens)|
      && forall k :: 0 <= k < |OpenLabels(tokens)| ==> r[|st.slurs| + k] == Slur(OpenLabels(tokens)[k], [obj])
    decreases |tokens|
  {
    if |tokens| > 0 {
      var init := tokens[..|tokens| - 1];
      var last := tokens[|tokens| - 1];
      var mid := TokensFold(st, init, obj);
      assert mid.error.None?;
      FoldOpens(st, init, obj);
      var r := TokensFold(st, tokens, obj).slurs;
      var n := |st.slurs|;
      if |last| == 2 && last[1] == 't' {
        var step := Attach(mid.slurs, [last[0]], obj);
        forall k | 0 <= k < |OpenLabels(tokens)|
          ensures r[n + k] == Slur(OpenLabels(tokens)[k], [obj])
        {
          assert mid.slurs[n + k] == Slur(OpenLabels(init)[k], [obj]);
          assert AddSpanned(mid.slurs[n + k], obj) == mid.slurs[n + k];
        }
      }
    }
  }

  /** Each `@slur` token in a well-formed list opens at most one slur: the registry grows by their number. */
  lemma SlurPassGrowth(slurs: seq<Slur>, attrs: map<string, string>, obj: ObjId)
    requires "slur" in attrs
    requires SlurPass(slurs, attrs, obj).error.None?
    ensures |SlurPass(slurs, attrs, obj).slurs| == |slurs| + |OpenLabels(Split(attrs["slur"], ' '))|
  {
    FoldOpens(LookupsState(slurs, attrs, obj), Split(attrs["slur"], ' '), obj);
  }

  // ---------------------------------------------------------------- examples

  /** A note with @slur="1i" opens slur "1"; a later note with "1t" joins it; "1m" is ignored. */
  lemma OpenThenCloseExample()
    ensures SlurPass([], map["slur" := "1i"], 5) == SlurState([Slur("1", [5])], true, true, None)
    ensures SlurPass([Slur("1", [5])], map["slur" := "1t"], 6) == SlurState([Slur("1", [5, 6])], true, true, None)
    ensures SlurPass([Slur("1", [5])], map["slur" := "1m"], 6) == SlurState([Slur("1", [5])], false, false, None)
  {
    SplitNoSeparator("1i", ' ');
    SplitNoSeparator("1t", ' ');
    SplitNoSeparator("1m", ' ');
    assert ["1i"][..0] == [];
    assert ["1t"][..0] == [];
    assert ["1m"][..0] == [];
    assert ["1t"[0]] == "1";
    assert FindSlur([Slur("1", [5])], "1") == Some(0);
    assert AddSpanned(Slur("1", [5]), 6) == Slur("1", [5, 6]);
  }

  /** A label that no slur carries is dropped silently. */
  lemma MissingLabelExample()
    ensures SlurPass([], map["m21SlurEnd" := "x"], 1) == SlurState([], false, false, None)
  {
  }

  /** A token that is not two characters long cannot be unpacked. */
  lemma MalformedTokenExample()
    ensures AddSlursResult([], map["slur" := "12i"], 1) == Err(PyError(ValueError))
  {
    SplitNoSeparator("12i", ' ');
    assert ["12i"][..0] == [];
  }

  /**
   * As written, a successful @m21SlurStart lookup followed by a failing @m21SlurEnd lookup
   * reports false although the object was joined to a slur.
   */
  lemma AsWrittenReportsFalseAfterJoin()
    ensures SlurPass([Slur("a", [])], map["m21SlurStart" := "a", "m21SlurEnd" := "b"], 7).slurs == [Slur("a", [7])]
    ensures AddSlursAsWritten([Slur("a", [])], map["m21SlurStart" := "a", "m21SlurEnd" := "b"], 7) == Ok(false)
    ensures AddSlursResult([Slur("a", [])], map["m21SlurStart" := "a", "m21SlurEnd" := "b"], 7) == Ok(true)
  {
    var attrs := map["m21SlurStart" := "a", "m21SlurEnd" := "b"];
    assert "slur" !in attrs;
    assert FindSlur([Slur("a", [])], "a") == Some(0);
    assert [Slur("a", [])][1..] == [];
    assert AddSpanned(Slur("a", []), 7) == Slur("a", [7]);
    assert [Slur("a", [])][0 := Slur("a", [7])] == [Slur("a", [7])];
    assert [Slur("a", [7])][1..] == [];
    assert FindSlur([Slur("a", [7])], "b") == None;
  }

  // ---------------------------------------------------------------- the registry

  /** The SpannerBundle of slurs shared by the preprocessor and the note converters. */
  class SlurBundle {
    var slurs: seq<Slur>

    constructor()
      ensures slurs == []
    {
      slurs := [];
    }

    /** Appends a slur to the registry. */
    method Append(s: Slur)
      modifies this
      ensures slurs == old(slurs) + [s]
    {
      slurs := slurs + [s];
    }

    /** The `wrapGetByIdLocal` helper: joins `obj` to the first slur labelled `name`. */
    method AttachTo(name: string, obj: ObjId) returns (found: bool)
      modifies this
      ensures (slurs, found) == Attach(old(slurs), name, obj)
    {
      var step := Attach(slurs, name, obj);
      slurs, found := step.0, step.1;
    }

    /** One `@slur` token: 'i' opens a slur labelled by the first character, 't' joins one. */
    method ApplyToken(token: string, obj: ObjId, added: bool, anyAdded: bool)
      returns (added': bool, anyAdded': bool, err: Option<Error>)
      modifies this
      ensures SlurState(slurs, added', anyAdded', err) ==
        TokenStep(SlurState(old(slurs), added, anyAdded, None), token, obj)
    {
      added', anyAdded', err := added, anyAdded, None;
      if |token| != 2 {
        err := Some(PyError(ValueError));
      } else if token[1] == 'i' {
        slurs := slurs + [Slur([token[0]], [obj])];
        added', anyAdded' := true, true;
      } else if token[1] == 't' {
        added' := AttachTo([token[0]], obj);
        anyAdded' := anyAdded || added';
      }
    }

    /** The @slur tokens left to right; a malformed token stops the loop with its error. */
    method ApplyTokens(tokens: seq<string>, obj: ObjId, added0: bool, anyAdded0: bool)
      returns (added: bool, anyAdded: bool, err: Option<Error>)
      modifies this
      ensures SlurState(slurs, added, anyAdded, err) ==
        TokensFold(SlurState(old(slurs), added0, anyAdded0, None), tokens, obj)
    {
      ghost var start := SlurState(slurs, added0, anyAdded0, None);
      added, anyAdded, err := added0, anyAdded0, None;
      var i := 0;
      while i < |tokens|
        invariant 0 <= i <= |tokens| && err.None?
        invariant SlurState(slurs, added, anyAdded, None) == TokensFold(start, tokens[..i], obj)
      {
        assert tokens[..i + 1][..i] == tokens[..i];
        added, anyAdded, err := ApplyToken(tokens[i], obj, added, anyAdded);
        if err.Some? {
          FoldAfterError(start, tokens, i + 1, obj);
          return;
        }
        i := i + 1;
      }
      assert tokens[..i] == tokens;
    }

    /**
     * `addSlurs(elem, obj, slurBundle)`: joins `obj` to the slurs named by @m21SlurStart and
     * @m21SlurEnd, then opens or closes one slur per `@slur` token. Returns whether at least
     * one slur was joined, or the error of a malformed token (earlier changes are kept).
     */
    method AddSlurs(attrs: map<string, string>, obj: ObjId) returns (r: Result<bool>)
      modifies this
      ensures slurs == SlurPass(old(slurs), attrs, obj).slurs
      ensures r == AddSlursResult(old(slurs), attrs, obj)
    {
      var added, anyAdded := false, false;
      if "m21SlurStart" in attrs {
        added := AttachTo(attrs["m21SlurStart"], obj);
        anyAdded := anyAdded || added;
      }
      if "m21SlurEnd" in attrs {
        added := AttachTo(attrs["m21SlurEnd"], obj);
        anyAdded := anyAdded || added;
      }
      assert SlurState(slurs, added, anyAdded, None) == LookupsState(old(slurs), attrs, obj);
      if "slur" in attrs {
        var err;
        added, anyAdded, err := ApplyTokens(Split(attrs["slur"], ' '), obj, added, anyAdded);
        if err.Some? {
          return Err(err.value);
        }
      }
      r := Ok(anyAdded);
    }
  }
}
