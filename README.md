# MEI import core of music21, in Dafny

This project models the deterministic core of music21's MEI importer (`music21/mei/base.py`).
The importer turns an MEI document into a music21 `Score`. The model replaces the XML tree and
music21's object library with small datatypes. Over those it defines and proves:

- **Attribute decoders** (`decoders.dfy`): the one-to-one attribute tables and `_attrTranslator`;
  articulations (`marc-stacc` and `ten-stacc` become two each); `_barlineFromAttr` (a pair for
  `rptboth`); key signatures; clef octave shifts; ties; `removeOctothorpe`; `makeDuration` over
  exact reals; and the integer arithmetic of `_transpositionFromAttrs`.
- **Spanning-element preprocessor** (`preprocess.dfy`): `_ppSlurs`, `_ppTies`, `_ppBeams`,
  `_ppTuplets` and `_ppConclude`, as methods of a `Converter` class. The class holds the
  annotation dictionary `m21Attr`, a slur registry, a label counter standing in for `uuid4()`,
  and the logged warnings. `_ppConclude` updates an array of element attribute maps in place.
- **Slur registry** (`spanners.dfy`): the `SpannerBundle` of slurs as a class, and `addSlurs`
  with its `wrapGetByIdLocal` helper.
- **Tuplet and beam engine** (`engine.dfy`): `scaleToTuplet`, `_guessTuplets`, `beamTogether`
  and the start/stop logic of `tupletFromElement`. Each works in place on an `array<Event>`.
- **Structural assembly** (`assembly.dfy`): `allPartsPresent`; the voice-id logic of
  `layerFromElement` and `staffFromElement`; `getVoiceId`; `_correctMRestDurs`; the duration and
  barline logic of `measureFromElement`; and the carry-over loop of `MeiToM21Converter.run`.
- Shared pieces: `wrappers.dfy` (`Option`, `Result`, the importer's exceptions) and `strings.dfy`
  (`str.split`, `str(n)`, `int(s)`).

Most loops of the source that update state are `method`s with a `while` loop. The exceptions:
- Two small loops that change objects in place are modelled as functions over values:
  - `measureFromElement` sets `rightBarline` on every measure in two loops. The model sets it
    with the map comprehension `Assembly.SetRight`.
  - `run` inserts each queued object at the start of a measure. The model prepends the queue
    in `Assembly.CompleteMeasure`.
- Two loops that only build a value are recursive functions:
  - the `for` loop of `_makeArticList`, as `Decoders.ArticsOfCodes`;
  - the sum of `makeDuration`, as `Decoders.DotSum`.

Each method is proved equal to a specification function, and lemmas state the source's
promises about those functions.

Where the code and its documentation or comments disagree, the model states what the code does.
Two of these disagreements are bugs (see "## Findings"). For those two, the code as written is
modelled and its failure proved, but the methods and the rest of the model use the corrected
behaviour: `Engine.BeamTogether` and `Engine.TupletFromElement` beam nothing when no object is
eligible, and `Spanners.SlurBundle.AddSlurs` reports whether any slur was joined. The others are
followed as written:

- `_ppTies` assigns `'i'`/`'t'` with plain assignment. A note that ends one `<tie>` and starts
  the next keeps only the value written last (`Preprocess.TieReplaced`).
- `_ppBeams` does not skip empty ids: its `pass` falls through. A `<beamSpan>` without `@plist`
  therefore records a `'continue'` beam for the id `''` (`Preprocess.BeamWithoutPlistExample`).
- `_guessTuplets` does not set the type of the first tuplet to `'start'`. Only the `'end'`
  object's tuplet becomes `'stop'`.
- `measureFromElement` writes a decoded `@left` into `rightBarline`, not `leftBarline`
  (`Assembly.LeftRptBothGoesRight`). Only `@right="rptboth"` produces the `'next @left'` entry
  that `run` uses as the following measure's left barline.
- `tupletFromElement` without a GeneralNote indexes with `None`. The model fails with the
  `TypeError` rather than excluding the case by a precondition (`Engine.TupletSpecNoNote`).
- `run` keeps a `<staffDef>` without `@n` as the part `None`. It then queries for
  `@n="None"`, finds no `<staffDef>`, and `staffDefFromElement(None)` raises an
  AttributeError (`Assembly.NonePartFails`).

## Model

| member | source | states |
|---|---|---|
| Strings.JoinSplit | music21/mei/base.py:822 | splitting a string at a separator and joining the pieces again gives back the string |
| Strings.ParseNatToString | music21/mei/base.py:2553 | `int(str(n)) == n` for every natural number |
| Strings.NatToStringInjective | music21/mei/base.py:2553 | different numbers print as different strings |
| Strings.ParseIntOfNat | music21/mei/base.py:1348-1349 | `int()` of a printed natural number gives that number back |
| Decoders.AttrTranslator | music21/mei/base.py:515-546 | a listed value gives `mapping[attr]`; any other value is an MeiValueError naming the attribute and the value |
| Decoders.TranslatorExamples | music21/mei/base.py:471-487 | `'s'` gives `'#'`; `@dur='9'` fails; an absent `@dur` gives 0.00390625; `'4'` gives 1.0; `'x'` is not a sounding accidental |
| Decoders.DurCodesAreReciprocals | music21/mei/base.py:485-487 | each numeric `@dur` code n (1 … 2048) is listed and stands for 4/n quarter lengths |
| Decoders.ArticulationFromAttr | music21/mei/base.py:584-600 | `marc-stacc` is StrongAccent then Staccato and `ten-stacc` Tenuto then Staccato; any other listed code is the one articulation its table entry names, a TypeError when the entry has no class, and an unlisted code an MeiValueError naming `artic` and the code |
| Decoders.ArticsOfCodes | music21/mei/base.py:603-611 | the articulations of a code list, each code expanded in order; the first code that fails fails the list (its properties are `ArticsOfCodesLength`, `ArticsOfCodesFails` and `ArticsOfCodesConcat`) |
| Decoders.MakeArticList | music21/mei/base.py:603-611 | the articulations of an `@artic` value are those of its blank-separated codes |
| Decoders.ArticsOfCodesLength | music21/mei/base.py:603-611 | a decoded `@artic` list has one articulation per code, plus one for every two-articulation code |
| Decoders.ArticsOfCodesFails | music21/mei/base.py:603-611 | the list fails exactly when one of its codes fails |
| Decoders.ArticsOfCodesConcat | music21/mei/base.py:603-611 | expanding concatenated code lists concatenates their articulations in order |
| Decoders.MarcStaccExample | music21/mei/base.py:595-596 | `marc-stacc` is a strong accent followed by a staccato |
| Decoders.TenStaccExample | music21/mei/base.py:597-598 | `ten-stacc` is a tenuto followed by a staccato |
| Decoders.UnimplementedArticExample | music21/mei/base.py:498-501 | a code listed without a class (`tap`) fails with a TypeError when its absent class is called |
| Decoders.TwoArticsExample | music21/mei/base.py:609-611 | `"acc stacc"` gives an accent then a staccato |
| Decoders.GetOctaveShift | music21/mei/base.py:614-631 | the shift exists exactly for a listed `@dis` (absent, 8, 15, 22); otherwise it is a KeyError |
| Decoders.OctaveShiftMeaning | music21/mei/base.py:626-631 | the shift is between -3 and 3; with `@dis` it is negative exactly when `@dis.place` is `below`; its size is the table's octave count; it is zero exactly without `@dis`, and `@dis` is 7·|shift|+1 |
| Decoders.SharpsFromAttr | music21/mei/base.py:634-656 | a decoded key signature has between -9 and 9 sharps; decoding succeeds exactly for a value starting with `0` or with a digit; an empty value is an IndexError and a non-digit first character a ValueError |
| Decoders.SharpsRoundTrip | music21/mei/base.py:650-656 | reading back the written form of k sharps (flats when k < 0) gives k |
| Decoders.SharpsExamples | music21/mei/base.py:640-656 | `3s` is 3, `3f` is -3, `0` is 0, and an empty value is an IndexError |
| Decoders.TieOfAppended | music21/mei/base.py:1087-1100 | a preprocessed `'i'` or `'t'` alone gives a start or a stop; appended to the opposite letter, it gives a continuation |
| Decoders.TieFromAttr | music21/mei/base.py:1087-1100 | a `@tie` with `m`, or with both `i` and `t`, is a continuation; `i` alone (no `t`, no `m`) a start; anything without `i` and `m` a stop |
| Decoders.RemoveOctothorpe | music21/mei/base.py:1202-1215 | a leading `#` is removed and nothing else changes |
| Decoders.BarlineFromAttr | music21/mei/base.py:1063-1084 | `rptend` is an end repeat played twice; `rptboth` is that end repeat then a start repeat (the only pair); any other `rpt…` code is a start repeat; any other code is the barline whose style the table lists, or an MeiValueError naming `right` and the code |
| Decoders.RptBothIsEndThenStart | music21/mei/base.py:1076-1077 | `rptboth` is the `rptend` barline followed by the `rptstart` one |
| Decoders.MakeDurationClosedForm | music21/mei/base.py:413-414 | base + Σ base/2^i for i = 1..dots equals 2·base − base/2^dots |
| Decoders.MakeDurationIncreasing | music21/mei/base.py:387-414 | no dots gives the base; for a positive base every further dot lengthens the value, which stays below twice the base |
| Decoders.MakeDuration | music21/mei/base.py:387-414 | the quarter length `base + Σ_{i=1..dots} base/2^i`; its closed form and bounds are `MakeDurationClosedForm` and `MakeDurationIncreasing` |
| Decoders.MakeDurationExamples | music21/mei/base.py:401-412 | the doctest values: (2, 0) is 2, (2, 1) is 3, (2, 2) is 3.5, (1/3, 1) is 0.5 |
| Decoders.TenDotsExample | music21/mei/base.py:407-408 | a half note with ten dots lasts 3.998046875 |
| Decoders.OctaveCorrectionMeaning | music21/mei/base.py:1039-1048 | the correction moves the diatonic steps by whole octaves only: exactly when the semitones and steps differ by more than five per octave it adds 7·(|semitones| div 12) in the direction of the semitones, and otherwise nothing |
| Decoders.OneBasedGenericInverse | music21/mei/base.py:1053-1057 | the one-based generic number keeps the sign, is one larger in size, and gives back the zero-based steps |
| Decoders.OctaveCorrectedDiatonic | music21/mei/base.py:1039-1048 | the octave-corrected diatonic steps whose meaning `OctaveCorrectionMeaning` states |
| Decoders.OneBasedGeneric | music21/mei/base.py:1053-1057 | zero-based diatonic steps to a one-based generic number, away from zero, inverted by `ZeroBasedSteps` |
| Decoders.TranspositionFromAttrs | music21/mei/base.py:1035-1057 | absent `@trans.diat`/`@trans.semi` count as 0; a value `int()` rejects is a ValueError; otherwise the (one-based corrected generic, semitones) pair handed to the interval library |
| Decoders.TranspositionExamples | music21/mei/base.py:1035-1057 | worked pairs: (0, 12) gives (8, 12), (0, −12) gives (−8, −12), (4, 7) gives (5, 7); a non-numeric value is a ValueError |
| Engine.PyInt | music21/mei/base.py:1348-1349 | `int(None)` is a TypeError; a value parses exactly when it is a signed decimal |
| Engine.AppendTuplet | music21/mei/base.py:1348-1351 | the event gains the tuplet (actual, normal) and its length is scaled by normal/actual; a zero actual count fails |
| Engine.ScaledLength | music21/mei/base.py:1348-1351 | the scaled length times the actual count equals the old length times the normal count |
| Engine.TypeFirstTuplet | music21/mei/base.py:1353-1358 | only the first tuplet's type changes: to `@m21TupletType` when present, else `'start'` for an `@tuplet` beginning with `i`, `'stop'` for one beginning with `t`, and nothing otherwise |
| Engine.SetFirstTupletType | music21/mei/base.py:1353-1358 | only the first tuplet's type is set; the other tuplets and fields are kept |
| Engine.ScaleEventMeaning | music21/mei/base.py:1337-1358 | objects without a duration are untouched; with a search mark only the marks are copied; otherwise one tuplet is added, typed from `@m21TupletType` or from `@tuplet` |
| Engine.ScaleEvent | music21/mei/base.py:1337-1358 | one object of `scaleToTuplet`: no duration, unchanged; with `@m21TupletSearch`, search fields recorded; otherwise the tuplet appended and its type set (meaning in `ScaleEventMeaning`) |
| Engine.ScaleAll | music21/mei/base.py:1337-1358 | `scaleToTuplet` over a list, stopping with the first error (meaning in `ScaleAllMeaning`) |
| Engine.ScaleEventScales | music21/mei/base.py:1347-1358 | a scaled object has one more tuplet and its length becomes ql·numbase/num (`ScaledLength`) |
| Engine.ScaleAllMeaning | music21/mei/base.py:1337-1358 | a failing scale leaves the list unchanged; a successful one scales each object |
| Engine.ScaleEventFailsAlike | music21/mei/base.py:1348-1349 | every object with a duration parses the same attributes, so all fail or none does |
| Engine.ScaleToTuplet | music21/mei/base.py:1301-1363 | the array afterwards holds the scaled list, and the result reports its failure |
| Engine.GuessAfterError | music21/mei/base.py:1401-1402 | after a count fails to parse, the scan changes nothing more |
| Engine.GuessVisit | music21/mei/base.py:1394-1422 | one pass of the loop body over one object is the specification step `GuessOne` |
| Engine.GuessOne | music21/mei/base.py:1394-1422 | one step of the `_guessTuplets` scan: a `start` mark opens a tuplet with its parsed counts, objects inside gain the tuplet, the `end` object gets `stop` and closes it; objects without duration are passed over |
| Engine.GuessTuplets | music21/mei/base.py:1366-1424 | the array afterwards holds what the scan leaves, and the result reports its error |
| Engine.GuessThrough | music21/mei/base.py:1399-1411 | inside a span, every object with a duration gains the span's tuplet and the scan stays inside |
| Engine.GuessSpan | music21/mei/base.py:1390-1424 | from a `'start'` object to the next `'end'` object, every Note, Rest and Chord gains one tuplet of the recorded counts; the `'end'` tuplet becomes `'stop'`; both ends lose their marks; other objects are untouched |
| Engine.GuessIdle | music21/mei/base.py:1394-1399 | outside a tuplet, objects before the next `'start'` are copied unchanged |
| Engine.GuessWithoutStart | music21/mei/base.py:1390-1424 | a layer without a `'start'` mark is left exactly as it was |
| Engine.Fill | music21/mei/base.py:1194 | `beams.fill` makes one beam per flag, all of the given type |
| Engine.SetAll | music21/mei/base.py:1197 | `beams.setAll` gives every existing beam the given type |
| Engine.LastEligible | music21/mei/base.py:1182-1195 | `iLastBeamedNote` is the last eligible object, or -1 when there is none |
| Engine.BeamFillAt | music21/mei/base.py:1184-1195 | an eligible object gets `'start'` beams when no eligible object precedes it, else `'continue'`; others are unchanged |
| Engine.BeamTogetherMeaning | music21/mei/base.py:1182-1199 | the first eligible Note/Chord is filled with `'start'`, later ones with `'continue'`, and the last one is set to `'stop'`; every other object is unchanged |
| Engine.BeamTogetherSpec | music21/mei/base.py:1182-1199 | `beamTogether` as documented: eligible objects filled start/continue and the last one stopped; nothing eligible, nothing changed (meaning in `BeamTogetherMeaning`) |
| Engine.BeamTogetherAsWritten | music21/mei/base.py:1182-1199 | `beamTogether` as written: with no eligible object, `someThings[-1]` is an IndexError on an empty list, an AttributeError on an object without beams, and otherwise sets that object's beams to `stop` |
| Engine.BeamTogetherOnlyBeams | music21/mei/base.py:1184-1197 | only beams change |
| Engine.BeamTogetherAsWrittenFailsOnRest | music21/mei/base.py:1197 | as written, quarter notes ending in a rest raise an AttributeError at `someThings[-1]` |
| Engine.BeamTogether | music21/mei/base.py:1169-1199 | the array afterwards is the corrected `beamTogether` of its old contents |
| Engine.FillBeams | music21/mei/base.py:1182-1195 | the first loop leaves `BeamFill` of the old contents (eligible objects without beams filled, `'start'` first then `'continue'`) and returns the index of the last filled object, or -1 |
| Engine.FirstGeneral | music21/mei/base.py:2363-2367 | the first GeneralNote, or none when there is none |
| Engine.LastGeneral | music21/mei/base.py:2368-2369 | the last GeneralNote, or none when there is none |
| Engine.FindFirstLast | music21/mei/base.py:2363-2369 | the loop finds the first GeneralNote, and the last one only when it comes after the first |
| Engine.GeneralUnique | music21/mei/base.py:2363-2369 | the first and last GeneralNote are determined by their defining properties |
| Engine.ScaledAt | music21/mei/base.py:2357-2358 | after scaling, a GeneralNote has one more tuplet and length ql·numbase/num (`ScaledLength`); other objects are unchanged |
| Engine.ScaledKinds | music21/mei/base.py:2358-2369 | scaling keeps every kind, so the first and last GeneralNote stay where they were |
| Engine.MarkAt | music21/mei/base.py:2371-2376 | marking sets only the first tuplet's type: `'start'` on the first GeneralNote, `'stop'` on the last |
| Engine.TupletSpecMissing | music21/mei/base.py:2350-2351 | without `@num` or `@numbase`, nothing changes and an MeiAttributeError is raised |
| Engine.TupletSpecNoNote | music21/mei/base.py:2363-2371 | members without a GeneralNote fail with a TypeError |
| Engine.TupletSpecAt | music21/mei/base.py:2350-2381 | on success, each GeneralNote gains the tuplet and its length becomes ql·numbase/num (`ScaledLength`); other objects keep their length and tuplets |
| Engine.MarkStartStop | music21/mei/base.py:2363-2376 | after scaling, the first GeneralNote's tuplet becomes `start` and the last's `stop` |
| Engine.TupletSpec | music21/mei/base.py:2350-2381 | the start/stop logic of `tupletFromElement`: missing counts, failed scaling or no GeneralNote fail; otherwise members scaled, marked and beamed (meaning in `TupletSpecMissing`, `TupletSpecNoNote`, `TupletSpecAt`) |
| Engine.TupletFromElement | music21/mei/base.py:2291-2381 | the array afterwards holds the members as the tuplet leaves them, and the result reports its error |
| Spanners.AddSpanned | music21/mei/base.py:1141 | the slur keeps its label and everything it spanned, and now also spans the object, nothing else |
| Spanners.FindSlur | music21/mei/base.py:1141 | `getByIdLocal(name)[0]` is the first slur with that label, or none |
| Spanners.Attach | music21/mei/base.py:1138-1145 | reports true exactly when a slur has the label, and then joins the object to the first one; otherwise nothing changes |
| Spanners.AddSlursResultMeaning | music21/mei/base.py:1103-1166 | `addSlurs` only adds the object to slurs and appends slurs spanning just it; it reports true exactly when it joined the object, and a false report leaves the registry unchanged |
| Spanners.TokenStep | music21/mei/base.py:1152-1163 | one `@slur` token: not two characters, a ValueError; role `i` appends a slur labelled by the first character; role `t` joins the first slur with that label; any other role is ignored |
| Spanners.SlurPass | music21/mei/base.py:1138-1166 | the `@m21SlurStart` and `@m21SlurEnd` lookups, then the `@slur` tokens in order |
| Spanners.AddSlursResult | music21/mei/base.py:1103-1166 | the corrected report: whether any slur was joined, or the token error (meaning in `AddSlursResultMeaning`) |
| Spanners.AddSlursAsWritten | music21/mei/base.py:1147-1166 | the report as written: the outcome of the last lookup or token (shown by `AsWrittenReportsFalseAfterJoin`) |
| Spanners.FoldOpens | music21/mei/base.py:1152-1163 | each well-formed `'i'` token appends one slur labelled by its first character and spanning the object, in token order |
| Spanners.SlurPassGrowth | music21/mei/base.py:1152-1161 | the registry grows by the number of opening tokens |
| Spanners.OpenThenCloseExample | music21/mei/base.py:1154-1164 | `1i` opens slur 1, a later `1t` joins it, and `1m` is ignored |
| Spanners.MissingLabelExample | music21/mei/base.py:1138-1150 | a label no slur carries is dropped silently |
| Spanners.MalformedTokenExample | music21/mei/base.py:1155 | a token that is not two characters long is a ValueError |
| Spanners.AsWrittenReportsFalseAfterJoin | music21/mei/base.py:1147-1150 | as written, a join followed by a failed lookup reports false |
| Spanners.SlurBundle.Append | music21/mei/base.py:1159 | the registry gains the slur at its end |
| Spanners.SlurBundle.AttachTo | music21/mei/base.py:1138-1145 | the registry and the report are those of `Attach` |
| Spanners.SlurBundle.AddSlurs | music21/mei/base.py:1103-1166 | the registry is updated as `addSlurs` updates it, and the result is whether a slur was joined |
| Spanners.SlurBundle.ApplyToken | music21/mei/base.py:1154-1163 | one `@slur` token: a malformed token is a ValueError; `'i'` opens a slur labelled by the first character holding the object; `'t'` joins the object to that slur |
| Spanners.SlurBundle.ApplyTokens | music21/mei/base.py:1152-1163 | the token loop leaves the registry and flags that folding the tokens left to right gives, stopping at the first malformed token |
| Spanners.SlurBundle.constructor | music21/mei/base.py:219 | a new bundle holds no slurs |
| Preprocess.Put | music21/mei/base.py:215 | `m21Attr[id][key] = v` on the defaultdict: it changes only that entry and creates the id |
| Preprocess.Get | music21/mei/base.py:822 | `elem.get(key)` has a value exactly when the attribute is present, and it is that attribute's value |
| Preprocess.SlurLabelInjective | music21/mei/base.py:733 | different counter values give different labels, as distinct UUIDs would |
| Preprocess.PutCounts | music21/mei/base.py:879-880 | the id records the tuplet's `@num` and `@numbase`; no other id changes |
| Preprocess.SearchMarks | music21/mei/base.py:888-893 | the id records the search role and both counts; no other id changes |
| Preprocess.ContinueBeamsMeaning | music21/mei/base.py:822-829 | every `@plist` id ends up with a beam: one it had already is kept, otherwise `'continue'`; no other id changes |
| Preprocess.TupletMembersMeaning | music21/mei/base.py:875-880 | every non-empty `@plist` id records `@num` and `@numbase` (None when missing); no other id changes |
| Preprocess.MarksTwice | music21/mei/base.py:888-893 | a `<tupletSpan>` whose two ends are the same id leaves only the `'end'` mark |
| Preprocess.SlurStepMeaning | music21/mei/base.py:731-741 | a `<slur>` with both ids appends one slur with a fresh label and records that label as `m21SlurStart`/`m21SlurEnd` on the ids, `#` stripped; without them it only warns |
| Preprocess.SlurStep | music21/mei/base.py:731-741 | `_ppSlurs` on one `<slur>`: with both ids, a fresh label recorded on both ends and a slur registered; otherwise a warning (meaning in `SlurStepMeaning`) |
| Preprocess.TieStepMeaning | music21/mei/base.py:773-778 | the end id records `tie='t'` and the start id `tie='i'`, the later write winning on a shared id; without both ids it only warns |
| Preprocess.TieStep | music21/mei/base.py:773-778 | `_ppTies` on one `<tie>`: `i` on the start, `t` on the end by plain assignment; otherwise a warning (meaning in `TieStepMeaning`) |
| Preprocess.TieReplaced | music21/mei/base.py:775-776 | for any two ties where the first ends on the note the second starts on (and the second ends elsewhere), that note's `tie` is `'i'`: the later assignment replaces the earlier `'t'` |
| Preprocess.BeamStepMeaning | music21/mei/base.py:813-829 | the end id's beam is `'stop'` and the start id's `'start'`; `@plist` members get `'continue'` unless they already have a beam, so the ends are never overwritten |
| Preprocess.BeamStep | music21/mei/base.py:813-829 | `_ppBeams` on one `<beamSpan>`: `start`/`stop` on the ends, then the `@plist` loop; without ids a warning (meaning in `BeamStepMeaning`) |
| Preprocess.ContinueBeams | music21/mei/base.py:822-829 | the `@plist` loop of `_ppBeams`: `continue` for each member without a beam (meaning in `ContinueBeamsMeaning`) |
| Preprocess.BeamStepEnds | music21/mei/base.py:818-819 | the end id's beam is `'stop'`; a different start id's is `'start'`; slurs, counter and warnings stay |
| Preprocess.BeamStepMembers | music21/mei/base.py:822-829 | every `@plist` member has a beam afterwards; a member that is not an end gets `'continue'` only when it had none; ids that are neither members nor ends stay |
| Preprocess.BeamStepBoth | music21/mei/base.py:818-829 | a `<beamSpan>` with both ids records `'start'` and `'stop'` on its ends, then runs the `@plist` loop |
| Preprocess.ContinueKeepsBeam | music21/mei/base.py:826-829 | the `@plist` loop never overwrites a beam already recorded on a note |
| Preprocess.BeamWithoutPlistExample | music21/mei/base.py:822-829 | without `@plist` the id `''` records a `'continue'` beam |
| Preprocess.TupletStepMeaning | music21/mei/base.py:866-893 | the three-way branch: warn without ids and `@plist`; with a `@plist`, the plist members; otherwise search marks on both ends |
| Preprocess.TupletStep | music21/mei/base.py:866-893 | `_ppTuplets` on one `<tupletSpan>`: the `@plist` branch whenever `@plist` exists, else the search marks on both ends, else a warning (meaning in `TupletStepMeaning`) |
| Preprocess.TupletMembers | music21/mei/base.py:874-880 | the `@plist` loop of `_ppTuplets`: each non-empty member records the counts (meaning in `TupletMembersMeaning`) |
| Preprocess.TupletStepWarns | music21/mei/base.py:867-869 | without both ids and without `@plist`, only a warning is logged |
| Preprocess.TupletStepPlist | music21/mei/base.py:870-880 | with `@plist`, exactly the non-empty members record the counts |
| Preprocess.TupletStepSearch | music21/mei/base.py:881-893 | with both ids and no `@plist`, the start id gets `'start'` and the end id `'end'`, both with the counts; every other id stays |
| Preprocess.TupletStepNoPlist | music21/mei/base.py:881-893 | a `<tupletSpan>` with both ids and no `@plist` marks its start and then its end for the later search |
| Preprocess.OtherStepKeepsSlurs | music21/mei/base.py:773-893 | the tie, beam and tuplet steps leave the registry, the counter and every slur reference as they are |
| Preprocess.StepValid | music21/mei/base.py:731-893 | every step keeps slur references resolvable and labels fresh |
| Preprocess.StepsValid | music21/mei/base.py:731-893 | a whole pass keeps the invariant |
| Preprocess.AllPassesValid | music21/mei/base.py:231-234 | from a new converter, the four passes leave every recorded slur reference naming a slur of the registry |
| Preprocess.StepsWarnings | music21/mei/base.py:741 | a pass warns once for each element it cannot import, in order, and for no other element |
| Preprocess.SlurPassRegistry | music21/mei/base.py:731-736 | `_ppSlurs` appends exactly one fresh slur, labelled by the counter in order, per `<slur>` with both ids |
| Preprocess.NewSlursLabels | music21/mei/base.py:731-736 | the j-th slur the pass creates is labelled by counter value `from + j` and holds no objects yet |
| Preprocess.SlurStepRegistry | music21/mei/base.py:730-741 | one `<slur>` with both ids appends one fresh slur labelled by the counter and advances it; one without leaves both as they were |
| Preprocess.OtherPassKeepsRegistry | music21/mei/base.py:773-893 | the tie, beam and tuplet passes keep the registry, the counter and the slur references |
| Preprocess.SlurPassExample | music21/mei/base.py:706-719 | the doctest: both ends carry the label of the only slur in the registry |
| Preprocess.ConcludeElemMeaning | music21/mei/base.py:929-932 | an element whose id was annotated gets each recorded value appended to its old value (or `''`); other attributes and other elements stay; a recorded None is a TypeError |
| Preprocess.ConcludeElem | music21/mei/base.py:926-932 | `_ppConclude` on one element: each recorded attribute appended to the old value or `''`; a recorded None is a TypeError (meaning in `ConcludeElemMeaning`) |
| Preprocess.ConcludeAll | music21/mei/base.py:926-932 | `_ppConclude` over the elements in order, stopping at the first failing one (meaning in `ConcludeAllMeaning`) |
| Preprocess.ConcludeAfterError | music21/mei/base.py:926-932 | after an element fails, the later elements stay as they are |
| Preprocess.ConcludeAllMeaning | music21/mei/base.py:926-932 | without a failure every element is concluded; otherwise those before the first failure are, and the rest are untouched |
| Preprocess.ConcludeAllOk | music21/mei/base.py:926-932 | the pass fails exactly when an element fails; without a failure each element is concluded |
| Preprocess.ConcludeAllFails | music21/mei/base.py:926-932 | a failing pass has a first failing element |
| Preprocess.Converter.constructor | music21/mei/base.py:215-219 | nothing recorded and an empty slur registry |
| Preprocess.Converter.SlurOne | music21/mei/base.py:732-741 | the converter's state after one `<slur>` is `SlurStep` of the old state |
| Preprocess.Converter.TieOne | music21/mei/base.py:774-778 | the state after one `<tie>` is `TieStep` of the old state |
| Preprocess.Converter.BeamOne | music21/mei/base.py:814-829 | the state after one `<beamSpan>` is `BeamStep` of the old state |
| Preprocess.Converter.ContinueIds | music21/mei/base.py:822-829 | the `@plist` loop records `'continue'` for exactly the members that had no beam, and changes nothing else of the converter |
| Preprocess.Converter.TupletOne | music21/mei/base.py:867-893 | the state after one `<tupletSpan>` is `TupletStep` of the old state |
| Preprocess.Converter.TupletIds | music21/mei/base.py:874-879 | the `@plist` loop records `@num` and `@numbase` on every non-empty member, and changes nothing else of the converter |
| Preprocess.Converter.MarkSearch | music21/mei/base.py:886-893 | one end of a `<tupletSpan>` without `@plist` records its search role and both counts |
| Preprocess.Converter.PpSlurs | music21/mei/base.py:661-741 | the state after `_ppSlurs` is the slur pass over the elements in order |
| Preprocess.Converter.PpTies | music21/mei/base.py:744-778 | the state after `_ppTies` is the tie pass |
| Preprocess.Converter.PpBeams | music21/mei/base.py:781-829 | the state after `_ppBeams` is the beam pass |
| Preprocess.Converter.PpTuplets | music21/mei/base.py:832-893 | the state after `_ppTuplets` is the tuplet pass |
| Preprocess.Converter.ConcludeOne | music21/mei/base.py:929-932 | the attribute loop gives `ConcludeElem` of the element |
| Preprocess.Converter.ConcludeAt | music21/mei/base.py:926-932 | one element is replaced by its concluded form, or, when concluding it fails, the document is unchanged and the error returned |
| Preprocess.Converter.PpConclude | music21/mei/base.py:896-932 | the array afterwards holds the concluded elements, and the result reports the first failure |
| Preprocess.Converter.Preprocess | music21/mei/base.py:229-235 | the four passes, then `_ppConclude`; from a new converter every slur reference resolves |
| Assembly.DedupMeaning | music21/mei/base.py:456-464 | the part list holds exactly the staffDef @n values, each once, in order of first appearance; it is empty only without staffDefs |
| Assembly.Dedup | music21/mei/base.py:456-461 | the staffDef @n values, each kept at its first appearance; never longer than the input (meaning in `DedupMeaning`) |
| Assembly.AllPartsExample | music21/mei/base.py:448-450 | staffDefs 1, 2, 2 give the parts 1, 2 |
| Assembly.AllPartsPresent | music21/mei/base.py:418-464 | the de-duplicated list, or an MeiValidityError when there are no staffDefs |
| Assembly.LayerSpec | music21/mei/base.py:2472-2486 | tuplets are guessed first; the id is a non-empty override, else @n, else an MeiAttributeError |
| Assembly.LayerWithoutTuplets | music21/mei/base.py:2472 | a layer without `'start'` marks keeps its objects exactly |
| Assembly.LayerFromElement | music21/mei/base.py:2384-2488 | the voice or error of `LayerSpec` |
| Assembly.ClefsOf | music21/mei/base.py:2546-2550 | the hoisted items are clefs |
| Assembly.NonClefs | music21/mei/base.py:2546-2551 | no clef is left in the voice |
| Assembly.HoistCounts | music21/mei/base.py:2546-2552 | every object of a layer is kept, either as a hoisted clef or in the voice |
| Assembly.VoicesOfHoist | music21/mei/base.py:2546-2552 | a converted layer adds exactly one voice, itself without its clefs |
| Assembly.StaffSpecMeaning | music21/mei/base.py:2539-2560 | one voice per `<layer>`; the k-th has id str(k+1); no voice holds a clef; every other item is a hoisted clef |
| Assembly.StaffSpec | music21/mei/base.py:2539-2553 | `staffFromElement`: the k-th `<layer>` converted with override str(k), its clefs hoisted, the first layer error failing the staff (meaning in `StaffSpecMeaning`) |
| Assembly.StaffVoiceIdsDistinct | music21/mei/base.py:2539-2553 | the voice ids of a staff are pairwise distinct |
| Assembly.HoistClefs | music21/mei/base.py:2546-2552 | the clefs of the layer, then the layer without them |
| Assembly.StaffFromElement | music21/mei/base.py:2491-2560 | the items or error of `StaffSpec`, with the counter kept as a string |
| Assembly.StaffAfterError | music21/mei/base.py:2544 | a failing layer makes the staff fail with its error |
| Assembly.GetVoiceId | music21/mei/base.py:1284-1298 | the id of the only voice, or a RuntimeError when there are fewer or more |
| Assembly.GetVoiceIdOfStaff | music21/mei/base.py:1294-1298 | a staff with one `<layer>` has voice id `"1"`; any other staff raises the RuntimeError |
| Assembly.ItemsLength | music21/mei/base.py:2677 | a measure lasts at least zero and at least as long as each of its voices |
| Assembly.CorrectMeasureMeaning | music21/mei/base.py:2578-2587 | no measure rest is left; each one lasts the target; other objects are unchanged; a measure and voice that held one last the target; numbers, barlines and ids are kept |
| Assembly.CorrectMeasure | music21/mei/base.py:2578-2587 | `_correctMRestDurs` on one measure (meaning in `CorrectMeasureMeaning`) |
| Assembly.CorrectTwice | music21/mei/base.py:2578-2587 | correcting twice is correcting once |
| Assembly.CorrectVoiceObjects | music21/mei/base.py:2582-2587 | the innermost loop corrects one voice |
| Assembly.CorrectMeasureObjects | music21/mei/base.py:2579-2587 | the middle loop corrects one measure and skips non-voices |
| Assembly.CorrectMRestDurs | music21/mei/base.py:2563-2587 | every measure of the dictionary is corrected |
| Assembly.Longer | music21/mei/base.py:2678-2679 | the running maximum is at least the new length and the old maximum, and is one of them |
| Assembly.StavesKeys | music21/mei/base.py:2673-2679 | the staves are keyed by the `<staff>` @n values, each a fresh measure with the measure's number; a maximum exists exactly when there is a `<staff>` |
| Assembly.StavesSpec | music21/mei/base.py:2673-2679 | the `<staff>` loop of `measureFromElement`: each staff converted, keyed by its @n, the longest length kept (meaning in `StavesKeys`, `StavesMaxBound`, `StavesMaxAttained`) |
| Assembly.MeasureNumber | music21/mei/base.py:2676 | `int(elem.get('n', backupNum))`: the parsed `@n`, or the running count without one |
| Assembly.StavesMaxBound | music21/mei/base.py:2675-2679 | no staff is longer than the maximum |
| Assembly.StavesMaxAttained | music21/mei/base.py:2677-2679 | the maximum is the length of one of the staves |
| Assembly.FillMissing | music21/mei/base.py:2687-2691 | every expected @n without a staff gets one voice `"1"` holding one rest of the maximum; existing staves are kept; an unparsable measure @n fails only when a rest measure is built |
| Assembly.TargetLength | music21/mei/base.py:2696-2703 | the meter's length when every staff is as long as a rest without @dur and the meter differs, else the maximum |
| Assembly.SetRight | music21/mei/base.py:2711-2714 | every measure's right barline is set and nothing else changes |
| Assembly.MeasureSpec | music21/mei/base.py:2686-2691 | every expected part has a measure |
| Assembly.MeasureFromElement | music21/mei/base.py:2590-2726 | the measures or error of `MeasureSpec` |
| Assembly.CollectStaves | music21/mei/base.py:2673-2679 | the `<staff>` loop gives the staves and the longest staff length of `StavesSpec`, or the first error |
| Assembly.FillStaves | music21/mei/base.py:2687-2691 | the rest loop gives `FillMissing`: every expected `@n` without a staff gets a rest measure, the others stay |
| Assembly.BarlinesMeaning | music21/mei/base.py:2706-2724 | fails exactly when a given @left or @right does not decode; otherwise keeps the staves, sets every right barline, and gives a repeat-start `'next @left'` exactly for `@right="rptboth"` |
| Assembly.Barlines | music21/mei/base.py:2705-2724 | the barline step: a decoded `@left` (for `rptboth` its second bar) into `rightBarline`, then a decoded `@right` into `rightBarline`, `rptboth` giving the `next @left` entry; keeps the staff keys (meaning in `BarlinesMeaning`) |
| Assembly.LeftRptBothGoesRight | music21/mei/base.py:2706-2714 | `@left="rptboth"` sets the repeat start as every measure's right barline |
| Assembly.CorrectedAt | music21/mei/base.py:2673-2703 | before the barlines a measure has its number, no barlines, an empty prefix, no padding and no measure rest left |
| Assembly.Corrected | music21/mei/base.py:2660-2703 | the measures of `measureFromElement` before barlines: converted staves, a rest for each missing expected @n, and full-measure rests corrected to the target length; every expected @n present |
| Assembly.MeasureSpecMeaning | music21/mei/base.py:2660-2726 | measures for every `<staff>` @n and expected @n, with the same number, no left barline and the decoded right barline; a missing staff is a single rest as long as the maximum |
| Assembly.MeasureRestLengths | music21/mei/base.py:2696-2703 | a staff that held a measure rest lasts the meter when every staff was only an absent-@dur rest and the meter differs, else the maximum |
| Assembly.CorrectedLength | music21/mei/base.py:2696-2703 | a measure that held a full-measure rest lasts exactly the target once corrected |
| Assembly.BarlinesKeepLength | music21/mei/base.py:2705-2726 | assigning the barlines keeps every staff and changes no staff's length |
| Assembly.MeasureStep | music21/mei/base.py:288-316 | the parts and queues stay keyed by the part list |
| Assembly.Placing | music21/mei/base.py:296-316 | the parts and queues stay keyed by the part list |
| Assembly.StaffDefStep | music21/mei/base.py:325-334 | the parts stay keyed by the part list; a `<staffDef>` with objects for an unknown part is a KeyError |
| Assembly.ScoreDefStep | music21/mei/base.py:318-324 | a `<scoreDef>` between measures: its objects wait for the next measure of every part and each time signature becomes active; keeps the part shape |
| Assembly.ItemStep | music21/mei/base.py:287-336 | the parts and queues stay keyed by the part list |
| Assembly.RunItems | music21/mei/base.py:285-336 | the parts and queues stay keyed by the part list through the loop |
| Assembly.StartFoldMeaning | music21/mei/base.py:255-262 | the set-up loop fails with an AttributeError exactly when some part's query finds no `<staffDef>`; otherwise each part starts with exactly the objects of its first `<staffDef>` |
| Assembly.InitialStateMeaning | music21/mei/base.py:241-277 | the set-up fails with an AttributeError exactly when some part's query finds no `<staffDef>`; otherwise nothing is counted, no left barline is pending, each part holds its first staffDef's objects, and every queue holds the initial scoreDef's objects |
| Assembly.StartFold | music21/mei/base.py:255-262 | the set-up loop over the parts: each part's query finds its first `<staffDef>` or fails with an AttributeError; keeps the part keys (meaning in `StartFoldMeaning`) |
| Assembly.InitialState | music21/mei/base.py:241-277 | the state before the sections: the set-up loop, then the initial `<scoreDef>` queued; keeps the part shape (meaning in `InitialStateMeaning`) |
| Assembly.QueueThings | music21/mei/base.py:273-277 | a `<scoreDef>`'s objects queued for every part, with the first-or-last meter rule (stated by `QueueScoreDef`) |
| Assembly.PartsList | music21/mei/base.py:344 | the k-th part of the score is the part of the k-th @n |
| Assembly.QueueForAll | music21/mei/base.py:276-277 | each part's queue gains the object |
| Assembly.QueueScoreDef | music21/mei/base.py:273-277 | the scoreDef's objects are queued for every part and the meter is updated |
| Assembly.CollectFirstDefs | music21/mei/base.py:259-262 | the first staffDef's objects as part entries, with only a first meter kept |
| Assembly.StartRun | music21/mei/base.py:241-277 | the set-up before the first section is `InitialState`, including its AttributeError |
| Assembly.CompleteMeasure | music21/mei/base.py:299-309 | the measure gets the queued objects, padding when it is the first measure, and a pending left barline |
| Assembly.PlaceFoldMeaning | music21/mei/base.py:296-311 | each part gets exactly its completed measure and an empty queue; other entries stay |
| Assembly.PlaceAll | music21/mei/base.py:296-311 | the inner loop over the parts is `PlaceFold` |
| Assembly.PlaceMeasure | music21/mei/base.py:288-316 | the `<measure>` branch is `MeasureStep` |
| Assembly.AddStaffDef | music21/mei/base.py:325-334 | the `<staffDef>` branch is `StaffDefStep` |
| Assembly.RunStep | music21/mei/base.py:287-336 | one item of the loop is `ItemStep` |
| Assembly.RunLoop | music21/mei/base.py:285-336 | the loop over the items is `RunItems` |
| Assembly.RunAfterError | music21/mei/base.py:285-336 | once an item fails, the later items change nothing: the exception ends `run` |
| Assembly.PartsInOrder | music21/mei/base.py:344 | the parts in part-list order |
| Assembly.Run | music21/mei/base.py:241-353 | `run` from the part list on is `RunSpec` |
| Assembly.MeasureStepMeaning | music21/mei/base.py:288-316 | the `<measure>` branch fails exactly when `measureFromElement` does; otherwise it places a result that fits |
| Assembly.PlacingMeaning | music21/mei/base.py:290-316 | a measure adds one to the counter and keeps the meter; every queue is emptied; every part gains one measure holding its queued objects, padded exactly for the first measure, with the carried-over left barline and the `<measure>`'s number and right barline |
| Assembly.PlacedMeaning | music21/mei/base.py:300-311 | completing a fresh measure of a part changes only its queued objects, its padding (exactly when the counter is 0) and its left barline |
| Assembly.PlacingCounted | music21/mei/base.py:290-311 | placing keeps every part's measure count equal to the counter and pads only the first measure |
| Assembly.InitialCounted | music21/mei/base.py:241-277 | before the loop no part holds a measure, so the counting invariant holds |
| Assembly.ItemStepCounted | music21/mei/base.py:287-336 | only a `<measure>` adds to the counter, and every item keeps the counting invariant |
| Assembly.RunCounted | music21/mei/base.py:285-336 | the loop adds one to the counter per `<measure>` and keeps the invariant |
| Assembly.RunSpecMeaning | music21/mei/base.py:241-353 | one part per distinct staff @n; each holds one measure per `<measure>`, only the first padded; the slurs follow |
| Assembly.RunSpecErrors | music21/mei/base.py:241-336 | without staffDefs `run` raises MeiValidityError; when some staffDef @n (a missing @n written `None`) has no `<staffDef>` for the query, an AttributeError; otherwise it fails exactly when the loop over the sections does |
| Assembly.RunSpec | music21/mei/base.py:241-353 | `run` after preprocessing: parts, set-up, the section loop, and the parts in part order with the slurs (meaning in `RunSpecMeaning`, `RunSpecErrors`) |
| Assembly.NonePartFails | music21/mei/base.py:255-257 | a `<staffDef>` without @n makes the part `None`; unless a `<staffDef>` has the literal @n `None`, `run` raises an AttributeError |

## Left out

- XML parsing and XPath queries are not modelled. The element tree is given as inputs: the
  spanning elements of each kind, a flat array of element attribute maps for `_ppConclude`,
  the staffDef @n values, and the score-level items of the sections with their converted contents.
- Converting the individual objects (notes, rests, chords, clefs, pitches, keys, instruments,
  time signatures) is not modelled. Engine events carry only what the core reads: kind, flags,
  length, beams, tuplets and search marks. A converted `<staffDef>`/`<scoreDef>` is given as a
  list of objects, of which only a time signature's total length matters.
- `Beams.fill` is modelled as one beam per flag. The library's limit on beam levels is not
  modelled.
- A Stream's duration is abstracted: a voice lasts the sum of its objects, a measure as long
  as its longest voice, and an explicitly set duration overrides either.
- The offsets at which `run` inserts queued objects are not modelled. The model puts them in
  a measure's `prefix`, in queue order; music21's own sorting of objects at offset 0 is not
  modelled.
- `padAsAnacrusis` is recorded as a flag on the measure; its effect on offsets is not modelled.
- Assembly.RestMeasure: a synthesized rest when no `<staff>` was seen (`quarterLength=None`)
  is given length 0, because what the library does with `None` is outside the core.
- `staffFromElement` removes clefs from the voice while iterating over it. The model hoists
  every clef; iteration skipping an object after a removed clef is not modelled.
- The `measureFromElement` dictionary mixes staff @n keys and the `'next @left'` key. The model
  keeps them apart, so a staff whose @n is literally `next @left` has no counterpart.
- Python dictionary order is not modelled. Results are maps; `run` orders parts by the part list,
  as the source does.
- `makeMetadata`, logging and debug messages are not modelled. Warnings of the preprocessor are
  kept as a list of messages.
- `uuid4()` is replaced by a counter: the n-th slur gets label `slur` + str(n).
- Quarter lengths are exact rationals (`real`), not floats.
- Strings.ParseInt: `int()` of a string with surrounding blanks or underscores is not modelled;
  only an optional sign and decimal digits parse.
- Decoders.TranspositionFromAttrs: the call into `interval.intervalFromGenericAndChromatic` is
  not modelled; the result is the (generic, chromatic) pair handed to it.
- Engine.BeamTogether, Engine.TupletFromElement: with no eligible object these follow the
  corrected `beamTogether` of "## Findings" and change nothing. The source indexes
  `someThings[-1]` there and raises an AttributeError when that object has no beams; only
  `Engine.BeamTogetherAsWritten` models that.
- Spanners.SlurBundle.AddSlurs: returns whether any slur was joined, the corrected report of
  "## Findings". The source returns the result of the last lookup; only
  `Spanners.AddSlursAsWritten` models that.
- Engine.AppendTuplet: a zero `@num` fails at once; the library would fail later, on division.
- Preprocess.Converter.PpConclude: the elements before the first failure are concluded in
  place, as the source leaves them; the array is all the document the model has.

## Findings

| source | as written | input that shows it | evidently intended | confidence | as-written member | corrected member |
|---|---|---|---|---|---|---|
| music21/mei/base.py:1147-1166 | `addedSlur` is overwritten by every lookup, so the last one decides | `@m21SlurStart` names an existing slur and `@m21SlurEnd` a missing one: the object is joined, but `False` is returned | true when at least one slur was joined, as the docstring says | high (not executed) | Spanners.AsWrittenReportsFalseAfterJoin | Spanners.AddSlursResultMeaning |
| music21/mei/base.py:1182-1197 | with no eligible object, `iLastBeamedNote` stays -1 and `someThings[-1]` is the last object | a tuplet of quarter notes ending in a rest: the rest has no `beams`, so an AttributeError | nothing to beam, nothing done | high (not executed) | Engine.BeamTogetherAsWrittenFailsOnRest | Engine.BeamTogetherMeaning |
