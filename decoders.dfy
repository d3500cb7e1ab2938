/**
 * The one-to-one attribute translators of the MEI importer and its other small, pure decoders:
 * accidentals, durations, articulations, barlines, key signatures, clef octave displacement,
 * ties, @xml:id references, dotted durations and the transposition interval.
 */
module Decoders {
  import opened Wrappers
  import opened Strings

  /** Looks `attr` up in `mapping`; an unlisted value is an MeiValueError naming attribute and value. */
  function AttrTranslator<V>(attr: Option<string>, name: string, mapping: map<Option<string>, V>): (r: Result<V>)
    ensures attr in mapping ==> r == Ok(mapping[attr])
    ensures attr !in mapping ==> r == Err(MeiValueError(name, attr))
  {
    if attr in mapping then Ok(mapping[attr]) else Err(MeiValueError(name, attr))
  }

  // ---------------------------------------------------------------- the tables

  /** Written accidentals; None is the absent @accid and yields no accidental. */
  const AccidTable: map<Option<string>, Option<string>> := map[
    Some("s") := Some("#"), Some("f") := Some("-"), Some("ss") := Some("##"), Some("x") := Some("##"),
    Some("ff") := Some("--"), Some("xs") := Some("###"), Some("ts") := Some("###"),
    Some("tf") := Some("---"), Some("n") := Some("n"), Some("nf") := Some("-"), Some("ns") := Some("#"),
    Some("su") := Some("???"), Some("sd") := Some("???"), Some("fu") := Some("???"),
    Some("fd") := Some("???"), Some("nu") := Some("???"), Some("nd") := Some("???"), None := None]

  /** Sounding accidentals (@accid.ges). */
  const AccidGesTable: map<Option<string>, Option<string>> := map[
    Some("s") := Some("#"), Some("f") := Some("-"), Some("ss") := Some("##"), Some("ff") := Some("--"),
    Some("n") := Some("n"), Some("su") := Some("???"), Some("sd") := Some("???"),
    Some("fu") := Some("???"), Some("fd") := Some("???"), None := None]

  /** The quarterLength used when @dur is absent (a 1024th note, chosen so it can be recognised). */
  const AbsentDurLength: real := 0.00390625

  /** Quarter lengths of the @dur codes. */
  const DurTable: map<Option<string>, real> := map[
    Some("long") := 16.0, Some("breve") := 8.0, Some("1") := 4.0, Some("2") := 2.0, Some("4") := 1.0,
    Some("8") := 0.5, Some("16") := 0.25, Some("32") := 0.125, Some("64") := 0.0625,
    Some("128") := 0.03125, Some("256") := 0.015625, Some("512") := 0.0078125,
    Some("1024") := 0.00390625, Some("2048") := 0.001953125, None := AbsentDurLength]

  /** The articulation classes of the music library that the @artic codes name. */
  datatype Articulation =
    | Accent | Staccato | Tenuto | Staccatissimo | StrongAccent | Spiccato | Doit | Plop | Falloff
    | DownBow | UpBow | Harmonic | SnapPizzicato | Stopped | OpenString | DoubleTongue | OrganToe
    | TripleTongue | OrganHeel

  /** @artic codes; the codes mapped to None have no class in the library. */
  const ArticTable: map<Option<string>, Option<Articulation>> := map[
    Some("acc") := Some(Accent), Some("stacc") := Some(Staccato), Some("ten") := Some(Tenuto),
    Some("stacciss") := Some(Staccatissimo), Some("marc") := Some(StrongAccent),
    Some("spicc") := Some(Spiccato), Some("doit") := Some(Doit), Some("plop") := Some(Plop),
    Some("fall") := Some(Falloff), Some("dnbow") := Some(DownBow), Some("upbow") := Some(UpBow),
    Some("harm") := Some(Harmonic), Some("snap") := Some(SnapPizzicato), Some("stop") := Some(Stopped),
    Some("open") := Some(OpenString), Some("dbltongue") := Some(DoubleTongue),
    Some("toe") := Some(OrganToe), Some("trpltongue") := Some(TripleTongue),
    Some("heel") := Some(OrganHeel),
    Some("tap") := None, Some("lhpizz") := None, Some("dot") := None, Some("stroke") := None,
    Some("rip") := None, Some("bend") := None, Some("flip") := None, Some("smear") := None,
    Some("fingernail") := None, Some("damp") := None, Some("dampall") := None]

  /** Barline styles of the non-repeat @left/@right codes. */
  const BarTable: map<Option<string>, string> := map[
    Some("dashed") := "dashed", Some("dotted") := "dotted", Some("dbl") := "double",
    Some("end") := "final", Some("invis") := "none", Some("single") := "none"]

  // ---------------------------------------------------------------- table translators

  function AccidentalFromAttr(attr: Option<string>): Result<Option<string>> {
    AttrTranslator(attr, "accid", AccidTable)
  }

  function AccidGesFromAttr(attr: Option<string>): Result<Option<string>> {
    AttrTranslator(attr, "accid.ges", AccidGesTable)
  }

  function QlDurationFromAttr(attr: Option<string>): Result<real> {
    AttrTranslator(attr, "dur", DurTable)
  }

  /** The numeric @dur codes: the powers of two from 1 to 2048. */
  predicate IsDurCode(n: nat) {
    n == 1 || n == 2 || n == 4 || n == 8 || n == 16 || n == 32 || n == 64 || n == 128 || n == 256
    || n == 512 || n == 1024 || n == 2048
  }

  /** The decimal text of the numeric @dur codes, as written in the table. */
  function DurCodeText(n: nat): string {
    if n == 1 then "1" else if n == 2 then "2" else if n == 4 then "4" else if n == 8 then "8"
    else if n == 16 then "16" else if n == 32 then "32" else if n == 64 then "64"
    else if n == 128 then "128" else if n == 256 then "256" else if n == 512 then "512"
    else if n == 1024 then "1024" else "2048"
  }

  lemma PrintedDurCode(n: nat)
    requires IsDurCode(n)
    ensures NatToString(n) == DurCodeText(n)
  {
    if n < 10 {
    } else if n == 16 {
      assert NatToString(16) == "16";
    } else if n == 32 {
      assert NatToString(32) == "32";
    } else if n == 64 {
      assert NatToString(64) == "64";
    } else if n == 128 {
      assert NatToString(12) == "12";
      assert NatToString(128) == "128";
    } else if n == 256 {
      assert NatToString(25) == "25";
      assert NatToString(256) == "256";
    } else if n == 512 {
      assert NatToString(51) == "51";
      assert NatToString(512) == "512";
    } else if n == 1024 {
      assert NatToString(10) == "10";
      assert NatToString(102) == "102";
      assert NatToString(1024) == "1024";
    } else {
      assert NatToString(20) == "20";
      assert NatToString(204) == "204";
      assert NatToString(2048) == "2048";
    }
  }

  /**
   * Each numeric @dur code n (a power of two up to 2048, written in decimal) stands for a note of
   * 4/n quarter lengths.
   */
  lemma DurCodesAreReciprocals(n: nat)
    requires IsDurCode(n)
    ensures Some(NatToString(n)) in DurTable
    ensures DurTable[Some(NatToString(n))] * (n as real) == 4.0
  {
    PrintedDurCode(n);
    if n <= 8 {
      assert DurTable[Some("1")] == 4.0 && DurTable[Some("2")] == 2.0;
      assert DurTable[Some("4")] == 1.0 && DurTable[Some("8")] == 0.5;
    } else if n <= 128 {
      assert DurTable[Some("16")] == 0.25 && DurTable[Some("32")] == 0.125;
      assert DurTable[Some("64")] == 0.0625 && DurTable[Some("128")] == 0.03125;
    } else {
      assert DurTable[Some("256")] == 0.015625 && DurTable[Some("512")] == 0.0078125;
      assert DurTable[Some("1024")] == 0.00390625 && DurTable[Some("2048")] == 0.001953125;
    }
  }

  /** The documented examples: 's' is '#', '9' is not a duration, an absent @dur is a 1024th. */
  lemma TranslatorExamples()
    ensures AccidentalFromAttr(Some("s")) == Ok(Some("#"))
    ensures QlDurationFromAttr(Some("9")) == Err(MeiValueError("dur", Some("9")))
    ensures QlDurationFromAttr(None) == Ok(0.00390625)
    ensures QlDurationFromAttr(Some("4")) == Ok(1.0)
    ensures AccidGesFromAttr(Some("x")) == Err(MeiValueError("accid.ges", Some("x")))
  {
  }

  // ---------------------------------------------------------------- articulations

  /**
   * One @artic code: 'marc-stacc' and 'ten-stacc' stand for two articulations; any other code is
   * the single articulation the table lists for it, a TypeError when the table lists no class,
   * and an "artic" value error naming the code when the table does not list it.
   */
  function ArticulationFromAttr(attr: string): (r: Result<seq<Articulation>>)
    ensures r.Ok? ==> 1 <= |r.value| <= 2
    ensures r.Ok? && |r.value| == 2 <==> attr == "marc-stacc" || attr == "ten-stacc"
    ensures attr == "marc-stacc" ==> r == Ok([StrongAccent, Staccato])
    ensures attr == "ten-stacc" ==> r == Ok([Tenuto, Staccato])
    ensures attr != "marc-stacc" && attr != "ten-stacc" ==>
      && (Some(attr) !in ArticTable ==> r == Err(MeiValueError("artic", Some(attr))))
      && (Some(attr) in ArticTable && ArticTable[Some(attr)].None? ==> r == Err(PyError(TypeError)))
      && (Some(attr) in ArticTable && ArticTable[Some(attr)].Some? ==> r == Ok([ArticTable[Some(attr)].value]))
  {
    if attr == "marc-stacc" then Ok([StrongAccent, Staccato])
    else if attr == "ten-stacc" then Ok([Tenuto, Staccato])
    else
      var looked := AttrTranslator(Some(attr), "artic", ArticTable);
      if looked.Err? then Err(looked.error)
      // a code without a class maps to None, and calling None is a TypeError
      else if looked.value.None? then Err(PyError(TypeError))
      else Ok([looked.value.value])
  }

  /** Articulations of a list of codes, in order; the first bad code fails the whole list. */
  function ArticsOfCodes(codes: seq<string>): (r: Result<seq<Articulation>>)
    decreases |codes|
  {
    if |codes| == 0 then Ok([])
    else
      match ArticulationFromAttr(codes[0])
      case Err(e) => Err(e)
      case Ok(first) =>
        match ArticsOfCodes(codes[1..])
        case Err(e) => Err(e)
        case Ok(rest) => Ok(first + rest)
  }

  /** The articulations of an @artic value: its blank-separated codes, each expanded. */
  function MakeArticList(attr: string): Result<seq<Articulation>> {
    ArticsOfCodes(Split(attr, ' '))
  }

  function CountCompound(codes: seq<string>): nat
    decreases |codes|
  {
    if |codes| == 0 then 0
    else (if codes[0] == "marc-stacc" || codes[0] == "ten-stacc" then 1 else 0) + CountCompound(codes[1..])
  }

  /** A successful list has one articulation per code, plus one more per two-articulation code. */
  lemma {:induction false} ArticsOfCodesLength(codes: seq<string>)
    requires ArticsOfCodes(codes).Ok?
    ensures |ArticsOfCodes(codes).value| == |codes| + CountCompound(codes)
    decreases |codes|
  {
    if |codes| > 0 {
      ArticsOfCodesLength(codes[1..]);
    }
  }

  /** The list fails exactly when one of its codes fails. */
  lemma {:induction false} ArticsOfCodesFails(codes: seq<string>)
    ensures ArticsOfCodes(codes).Err? <==> exists i :: 0 <= i < |codes| && ArticulationFromAttr(codes[i]).Err?
    decreases |codes|
  {
    if |codes| > 0 {
      ArticsOfCodesFails(codes[1..]);
      if ArticsOfCodes(codes).Err? && ArticulationFromAttr(codes[0]).Ok? {
        var i :| 0 <= i < |codes[1..]| && ArticulationFromAttr(codes[1..][i]).Err?;
        assert ArticulationFromAttr(codes[i + 1]).Err?;
      }
      if exists i :: 0 <= i < |codes| && ArticulationFromAttr(codes[i]).Err? {
        var i :| 0 <= i < |codes| && ArticulationFromAttr(codes[i]).Err?;
        if i > 0 {
          assert ArticulationFromAttr(codes[1..][i - 1]).Err?;
        }
      }
    }
  }

  lemma MarcStaccExample()
    ensures MakeArticList("marc-stacc") == Ok([StrongAccent, Staccato])
  {
    SplitNoSeparator("marc-stacc", ' ');
    OneCodeList("marc-stacc");
  }

  lemma TenStaccExample()
    ensures MakeArticList("ten-stacc") == Ok([Tenuto, Staccato])
  {
    SplitNoSeparator("ten-stacc", ' ');
    OneCodeList("ten-stacc");
  }

  /** A list of one code gives that code's articulations. */
  lemma OneCodeList(code: string)
    ensures ArticsOfCodes([code]) == ArticulationFromAttr(code)
  {
    assert [code][1..] == [];
    assert ArticsOfCodes([]) == Ok([]);
    var r := ArticulationFromAttr(code);
    if r.Ok? {
      assert r.value + [] == r.value;
    }
  }

  /** Codes listed without a library class fail when their (absent) class is called. */
  lemma UnimplementedArticExample()
    ensures ArticulationFromAttr("tap") == Err(PyError(TypeError))
  {
  }

  /** Expanding a concatenation of code lists concatenates their expansions when both succeed. */
  lemma {:induction false} ArticsOfCodesConcat(a: seq<string>, b: seq<string>)
    requires ArticsOfCodes(a).Ok? && ArticsOfCodes(b).Ok?
    ensures ArticsOfCodes(a + b) == Ok(ArticsOfCodes(a).value + ArticsOfCodes(b).value)
    decreases |a|
  {
    if |a| == 0 {
      assert a + b == b;
      assert ArticsOfCodes(a).value == [];
      assert [] + ArticsOfCodes(b).value == ArticsOfCodes(b).value;
    } else {
      assert (a + b)[1..] == a[1..] + b;
      assert (a + b)[0] == a[0];
      ArticsOfCodesConcat(a[1..], b);
      var first := ArticulationFromAttr(a[0]).value;
      assert first + (ArticsOfCodes(a[1..]).value + ArticsOfCodes(b).value)
          == (first + ArticsOfCodes(a[1..]).value) + ArticsOfCodes(b).value;
    }
  }

  /** Two codes give their articulations in order. */
  lemma TwoArticsExample()
    ensures MakeArticList("acc stacc") == Ok([Accent, Staccato])
  {
    SplitTwoCodes();
    AccAndStaccCodes();
    OneCodeList("acc");
    OneCodeList("stacc");
    ArticsOfCodesConcat(["acc"], ["stacc"]);
    assert [Accent] + [Staccato] == [Accent, Staccato];
  }

  lemma SplitTwoCodes()
    ensures Split("acc stacc", ' ') == ["acc"] + ["stacc"]
  {
    SplitNoSeparator("stacc", ' ');
    SplitAt("acc", "stacc", ' ');
    assert "acc" + [' '] + "stacc" == "acc stacc";
  }

  lemma AccAndStaccCodes()
    ensures ArticulationFromAttr("acc") == Ok([Accent])
    ensures ArticulationFromAttr("stacc") == Ok([Staccato])
  {
    assert ArticTable[Some("acc")] == Some(Accent);
    assert ArticTable[Some("stacc")] == Some(Staccato);
  }

  // ---------------------------------------------------------------- clefs, keys, ties, references

  const OctavesTable: map<Option<string>, int> := map[None := 0, Some("8") := 1, Some("15") := 2, Some("22") := 3]

  /** Octave displacement of a clef from @dis and @dis.place; an unlisted @dis is a KeyError. */
  function GetOctaveShift(dis: Option<string>, disPlace: Option<string>): (r: Result<int>)
    ensures r.Ok? <==> dis in OctavesTable
  {
    if dis !in OctavesTable then Err(PyError(KeyError))
    else if disPlace == Some("below") then Ok(-1 * OctavesTable[dis])
    else Ok(OctavesTable[dis])
  }

  /**
   * A displacement of k octaves is written as the interval number 7k+1; it is negative exactly
   * when the clef has a displacement placed below, and its size is the table's octave count.
   */
  lemma OctaveShiftMeaning(dis: Option<string>, disPlace: Option<string>)
    requires GetOctaveShift(dis, disPlace).Ok?
    ensures var k := GetOctaveShift(dis, disPlace).value;
      && -3 <= k <= 3
      && (k < 0 ==> disPlace == Some("below"))
      && (dis.Some? ==> (k < 0 <==> disPlace == Some("below")))
      && (if k < 0 then -k else k) == OctavesTable[dis]
      && (dis.None? <==> k == 0)
      && (dis.Some? ==> ParseNat(dis.value) == Some(7 * (if k < 0 then -k else k) + 1))
  {
    ParseNatToString(8); ParseNatToString(15); ParseNatToString(22);
    assert NatToString(15) == "15";
    assert NatToString(22) == "22";
  }

  /** Sharps of a @key.sig value ('0', or a digit followed by 's' or 'f'); negative for flats. */
  function SharpsFromAttr(signature: string): (r: Result<int>)
    ensures r.Ok? ==> -9 <= r.value <= 9
    ensures r.Ok? <==> StartsWith(signature, "0") || (|signature| > 0 && IsDigit(signature[0]))
    ensures !StartsWith(signature, "0") && |signature| == 0 ==> r == Err(PyError(IndexError))
    ensures !StartsWith(signature, "0") && |signature| > 0 && !IsDigit(signature[0]) ==> r == Err(PyError(ValueError))
  {
    if StartsWith(signature, "0") then Ok(0)
    else if |signature| == 0 then Err(PyError(IndexError))
    else if !IsDigit(signature[0]) then Err(PyError(ValueError))
    else if EndsWith(signature, "s") then Ok(DigitValue(signature[0]))
    else Ok(-1 * DigitValue(signature[0]))
  }

  /** The @key.sig value a signature of `sharps` sharps (flats when negative) is written as. */
  function KeySigAttr(sharps: int): string
    requires -9 <= sharps <= 9
  {
    if sharps == 0 then "0"
    else if sharps > 0 then [DigitChar(sharps)] + "s"
    else [DigitChar(-sharps)] + "f"
  }

  /** Reading back a written key signature gives its number of sharps. */
  lemma SharpsRoundTrip(sharps: int)
    requires -9 <= sharps <= 9
    ensures SharpsFromAttr(KeySigAttr(sharps)) == Ok(sharps)
  {
    var s := KeySigAttr(sharps);
    if sharps != 0 {
      assert s[..1] == [s[0]];
      assert s[|s| - 1..] == [s[1]];
    }
  }

  lemma SharpsExamples()
    ensures SharpsFromAttr("3s") == Ok(3)
    ensures SharpsFromAttr("3f") == Ok(-3)
    ensures SharpsFromAttr("0") == Ok(0)
    ensures SharpsFromAttr("") == Err(PyError(IndexError))
  {
    SharpsRoundTrip(3);
    SharpsRoundTrip(-3);
    SharpsRoundTrip(0);
  }

  datatype TieType = TieStart | TieContinue | TieStop

  /** The tie of a @tie value: 'm', or both 'i' and 't', continue; 'i' alone starts; else it stops. */
  function TieFromAttr(attr: string): (r: TieType)
    ensures r == TieContinue <==> 'm' in attr || ('t' in attr && 'i' in attr)
    ensures r == TieStart <==> 'i' in attr && 't' !in attr && 'm' !in attr
    ensures r == TieStop <==> 'i' !in attr && 'm' !in attr
  {
    if 'm' in attr || ('t' in attr && 'i' in attr) then TieContinue
    else if 'i' in attr then TieStart
    else TieStop
  }

  /**
   * The concluding preprocessing pass appends the tie pass's 'i' or 't' to an existing @tie:
   * a note that already closes a tie and gets 'i' becomes a continuation, and an opening 'i'
   * or closing 't' on a note without @tie gives a start or a stop.
   */
  lemma TieOfAppended(existing: string, added: char)
    requires added == 'i' || added == 't'
    requires 'm' !in existing
    ensures existing == "" ==> TieFromAttr(existing + [added]) == (if added == 'i' then TieStart else TieStop)
    ensures (('i' in existing && added == 't') || ('t' in existing && added == 'i'))
              ==> TieFromAttr(existing + [added]) == TieContinue
  {
    assert added in existing + [added];
    assert forall c :: c in existing ==> c in existing + [added];
    if existing == "" {
      assert existing + [added] == [added];
    }
  }

  /** Strips the '#' that marks an @xml:id reference. */
  function RemoveOctothorpe(xmlid: string): (r: string)
    ensures StartsWith(xmlid, "#") ==> "#" + r == xmlid
    ensures !StartsWith(xmlid, "#") ==> r == xmlid
  {
    if StartsWith(xmlid, "#") then xmlid[1..] else xmlid
  }

  // ---------------------------------------------------------------- barlines

  datatype RepeatDirection = RepeatStart | RepeatEnd
  datatype Bar = Barline(style: string) | Repeat(direction: RepeatDirection, times: Option<int>)
  datatype BarResult = OneBar(bar: Bar) | BarPair(first: Bar, second: Bar)

  /**
   * A @left/@right value: 'rptend' is an end repeat played twice, 'rptboth' that end repeat
   * followed by a start repeat, any other code starting 'rpt' a start repeat, and any other
   * code the barline style the table lists for it, or a "right" value error naming the code.
   */
  function BarlineFromAttr(attr: string): (r: Result<BarResult>)
    ensures StartsWith(attr, "rpt") ==> r.Ok?
    ensures !StartsWith(attr, "rpt") ==> (r.Ok? <==> Some(attr) in BarTable)
    ensures r.Ok? && r.value.BarPair? <==> attr == "rptboth"
    ensures attr == "rptboth" ==> r == Ok(BarPair(Repeat(RepeatEnd, Some(2)), Repeat(RepeatStart, None)))
    ensures attr == "rptend" ==> r == Ok(OneBar(Repeat(RepeatEnd, Some(2))))
    ensures StartsWith(attr, "rpt") && attr != "rptboth" && attr != "rptend" ==> r == Ok(OneBar(Repeat(RepeatStart, None)))
    ensures !StartsWith(attr, "rpt") && Some(attr) in BarTable ==> r == Ok(OneBar(Barline(BarTable[Some(attr)])))
    ensures !StartsWith(attr, "rpt") && Some(attr) !in BarTable ==> r == Err(MeiValueError("right", Some(attr)))
  {
    if StartsWith(attr, "rpt") then
      if attr == "rptboth" then Ok(BarPair(Repeat(RepeatEnd, Some(2)), Repeat(RepeatStart, None)))
      else if attr == "rptend" then Ok(OneBar(Repeat(RepeatEnd, Some(2))))
      else Ok(OneBar(Repeat(RepeatStart, None)))
    else
      match AttrTranslator(Some(attr), "right", BarTable)
      case Err(e) => Err(e)
      case Ok(style) => Ok(OneBar(Barline(style)))
  }

  /** 'rptboth' is the 'rptend' barline followed by the 'rptstart' one. */
  lemma RptBothIsEndThenStart()
    ensures BarlineFromAttr("rptboth") == Ok(BarPair(BarlineFromAttr("rptend").value.bar, BarlineFromAttr("rptstart").value.bar))
  {
    assert "rptboth"[..3] == "rpt";
    assert "rptend"[..3] == "rpt";
    assert "rptstart"[..3] == "rpt";
  }

  // ---------------------------------------------------------------- durations

  function Pow2(i: nat): (r: real)
    ensures r >= 1.0
  {
    if i == 0 then 1.0 else 2.0 * Pow2(i - 1)
  }

  /** base/2 + base/4 + ... + base/2^dots */
  function DotSum(base: real, dots: nat): real {
    if dots == 0 then 0.0 else DotSum(base, dots - 1) + base / Pow2(dots)
  }

  /** Quarter length of a note value `base` with `dots` augmentation dots. */
  function MakeDuration(base: real, dots: nat): real {
    base + DotSum(base, dots)
  }

  /** Each dot adds half of what the previous one added: the total is 2·base − base/2^dots. */
  lemma {:induction false} MakeDurationClosedForm(base: real, dots: nat)
    ensures MakeDuration(base, dots) == 2.0 * base - base / Pow2(dots)
  {
    if dots > 0 {
      MakeDurationClosedForm(base, dots - 1);
      var p := Pow2(dots - 1);
      assert Pow2(dots) == 2.0 * p;
      assert base / p == 2.0 * (base / (2.0 * p));
    }
  }

  /** No dots leaves the base unchanged; every further dot lengthens a positive value, never reaching twice the base. */
  lemma MakeDurationIncreasing(base: real, dots: nat)
    requires base > 0.0
    ensures MakeDuration(base, 0) == base
    ensures base <= MakeDuration(base, dots) < MakeDuration(base, dots + 1) < 2.0 * base
  {
    MakeDurationClosedForm(base, dots);
    MakeDurationClosedForm(base, dots + 1);
    var p := Pow2(dots);
    assert Pow2(dots + 1) == 2.0 * p;
    assert base / (2.0 * p) < base / p;
    assert base / p <= base;
  }

  lemma MakeDurationExamples()
    ensures MakeDuration(2.0, 0) == 2.0
    ensures MakeDuration(2.0, 1) == 3.0
    ensures MakeDuration(2.0, 2) == 3.5
    ensures MakeDuration(1.0 / 3.0, 1) == 0.5
  {
    assert Pow2(1) == 2.0;
    assert Pow2(2) == 4.0;
  }

  lemma TenDotsExample()
    ensures MakeDuration(2.0, 10) == 3.998046875
  {
    MakeDurationClosedForm(2.0, 10);
    assert Pow2(2) == 4.0;
    assert Pow2(4) == 16.0;
    assert Pow2(6) == 64.0;
    assert Pow2(8) == 256.0;
    assert Pow2(10) == 1024.0;
  }

  // ---------------------------------------------------------------- transposition

  function Abs(x: int): nat { if x < 0 then -x else x }

  /** Adds whole octaves to the diatonic steps when the semitones imply more than five per octave. */
  function OctaveCorrectedDiatonic(transDiat: int, transSemi: int): int {
    if Abs(transSemi - transDiat) > 5 * (Abs(transSemi) / 12 + 1) then
      if transSemi < 0 then transDiat - 7 * (Abs(transSemi) / 12)
      else if transSemi > 0 then transDiat + 7 * (Abs(transSemi) / 12)
      else transDiat
    else transDiat
  }

  /** Zero-based diatonic steps to a one-based generic interval number, keeping the sign. */
  function OneBasedGeneric(steps: int): int {
    if steps < 0 then steps - 1 else if steps > 0 then steps + 1 else steps
  }

  function ZeroBasedSteps(generic: int): int {
    if generic < 0 then generic + 1 else if generic > 0 then generic - 1 else generic
  }

  lemma OneBasedGenericInverse(steps: int)
    ensures ZeroBasedSteps(OneBasedGeneric(steps)) == steps
    ensures OneBasedGeneric(steps) != 0 ==> Abs(OneBasedGeneric(steps)) == Abs(steps) + 1
  {
  }

  /** The (generic, chromatic) pair handed to the interval library; absent attributes count as 0. */
  function TranspositionFromAttrs(transDiat: Option<string>, transSemi: Option<string>): (r: Result<(int, int)>)
  {
    var d := if transDiat.None? then Some(0) else ParseInt(transDiat.value);
    if d.None? then Err(PyError(ValueError))
    else
      var s := if transSemi.None? then Some(0) else ParseInt(transSemi.value);
      if s.None? then Err(PyError(ValueError))
      else Ok((OneBasedGeneric(OctaveCorrectedDiatonic(d.value, s.value)), s.value))
  }

  /**
   * The octave correction moves the diatonic count only by whole octaves, towards the sign of the
   * semitones, by as many octaves as the semitones span, and exactly when the semitones and the
   * diatonic steps differ by more than five per octave; without semitones nothing moves.
   */
  lemma OctaveCorrectionMeaning(transDiat: int, transSemi: int)
    ensures var c := OctaveCorrectedDiatonic(transDiat, transSemi);
      && (c - transDiat) % 7 == 0
      && (transSemi == 0 ==> c == transDiat)
      && (transSemi > 0 ==> c == transDiat || c == transDiat + 7 * (transSemi / 12))
      && (transSemi < 0 ==> c == transDiat || c == transDiat - 7 * (-transSemi / 12))
      && (Abs(transSemi - transDiat) <= 5 * (Abs(transSemi) / 12 + 1) ==> c == transDiat)
      && (Abs(transSemi - transDiat) > 5 * (Abs(transSemi) / 12 + 1) && transSemi > 0 ==>
            c == transDiat + 7 * (transSemi / 12))
      && (Abs(transSemi - transDiat) > 5 * (Abs(transSemi) / 12 + 1) && transSemi < 0 ==>
            c == transDiat - 7 * (-transSemi / 12))
  {
  }

  lemma TranspositionExamples()
    ensures TranspositionFromAttrs(Some("0"), Some("12")) == Ok((8, 12))
    ensures TranspositionFromAttrs(Some("0"), Some("-12")) == Ok((-8, -12))
    ensures TranspositionFromAttrs(Some("4"), Some("7")) == Ok((5, 7))
    ensures TranspositionFromAttrs(Some("-1"), Some("-2")) == Ok((-2, -2))
    ensures TranspositionFromAttrs(None, Some("0")) == Ok((0, 0))
    ensures TranspositionFromAttrs(Some("x"), None) == Err(PyError(ValueError))
  {
    ParsedExamples();
  }

  lemma ParsedExamples()
    ensures ParseInt("0") == Some(0) && ParseInt("12") == Some(12) && ParseInt("-12") == Some(-12)
    ensures ParseInt("4") == Some(4) && ParseInt("7") == Some(7)
    ensures ParseInt("-1") == Some(-1) && ParseInt("-2") == Some(-2)
    ensures ParseInt("x") == None
  {
    ParseIntOfNat(0); ParseIntOfNat(12); ParseIntOfNat(4); ParseIntOfNat(7);
    ParseIntOfNat(1); ParseIntOfNat(2);
    assert NatToString(12) == "12";
    assert "-12"[1..] == "12";
    assert "-1"[1..] == "1";
    assert "-2"[1..] == "2";
  }
}
