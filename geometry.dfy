/** `seq2line` and `line2seq` of latticeconverter/utils.py: between a
    "sequence" (element names at absolute centre positions) and a "line"
    (element names one after the other, the gaps filled by numbered drifts).
    Positions and lengths are exact reals. */
module Geometry {
  import opened Dicts
  import opened LatticeData
  import opened Text

  /** Gaps and overlaps below 1 µm are ignored. */
  const Threshold: real := 0.000001

  function Abs(x: real): real {
    if x < 0.0 then -x else x
  }

  /** `elements[name][1]['length']`, used as a number: a missing element or
      attribute is a `KeyError`, a string length a `TypeError`. */
  function LengthOf(els: Dict<Element>, name: string): (r: Result<real>)
    ensures r.Ok? ==> name in els.items
  {
    if name !in els.items then Err(KeyError(name))
    else if "length" !in els.items[name].attrs.items then Err(KeyError("length"))
    else match els.items[name].attrs.items["length"]
      case Num(x) => Ok(x)
      case Str(_) => Err(TypeError)
  }

  /** `"drift_" + str(k)`. */
  function DriftName(k: nat): string {
    "drift_" + NatToString(k)
  }

  /** A name of the form `drift_...`; every `DriftName` is one. */
  predicate DriftLike(s: string) {
    |s| >= 6 && s[..6] == "drift_"
  }

  /** Proof step: a generated drift name looks like one. */
  lemma DriftNameLike(k: nat)
    ensures DriftLike(DriftName(k))
  {
    assert DriftName(k)[..6] == "drift_";
  }

  /** Different drift numbers give different names. */
  lemma DriftNameInjective(j: nat, k: nat)
    requires DriftName(j) == DriftName(k)
    ensures j == k
  {
    assert NatToString(j) == DriftName(j)[6..] == DriftName(k)[6..] == NatToString(k);
    NatToStringInjective(j, k);
  }

  /** `['Drift', {'length': d}]`. */
  function DriftElement(d: real): Element {
    Element("Drift", Dict(["length"], map["length" := Num(d)]))
  }

  /** The drift names handed out while `drift_nbr` counted up to `n`. */
  function DriftKeys(n: nat): set<string> {
    set j | 0 <= j < n :: DriftName(j)
  }

  /** Proof step: one more drift number adds its name. */
  lemma DriftKeysNext(n: nat)
    ensures DriftKeys(n + 1) == DriftKeys(n) + {DriftName(n)}
  {
    forall k | k in DriftKeys(n + 1) ensures k in DriftKeys(n) + {DriftName(n)} {
      var j :| 0 <= j < n + 1 && k == DriftName(j);
    }
  }

  function Numbered(n: nat): (r: seq<string>)
    ensures |r| == n
  {
    if n == 0 then [] else Numbered(n - 1) + [DriftName(n - 1)]
  }

  /** The drift-like names of a line, in order. */
  function DriftsOf(line: seq<string>): seq<string> {
    if line == [] then []
    else DriftsOf(line[..|line| - 1]) + (if DriftLike(line[|line| - 1]) then [line[|line| - 1]] else [])
  }

  /** The other names of a line, in order. */
  function Strip(line: seq<string>): seq<string> {
    if line == [] then []
    else Strip(line[..|line| - 1]) + (if DriftLike(line[|line| - 1]) then [] else [line[|line| - 1]])
  }

  function Names(s: seq<(string, real)>): (r: seq<string>)
    ensures |r| == |s| && forall i :: 0 <= i < |s| ==> r[i] == s[i].0
  {
    if s == [] then [] else Names(s[..|s| - 1]) + [s[|s| - 1].0]
  }

  /** Proof step: the names of one more entry add its name. */
  lemma NamesAppend(s: seq<(string, real)>, x: (string, real))
    ensures Names(s + [x]) == Names(s) + [x.0]
  {
    assert (s + [x])[..|s|] == s;
  }

  /** The summed lengths of the names of a line, or the first lookup error. */
  function Span(line: seq<string>, els: Dict<Element>): Result<real> {
    if line == [] then Ok(0.0)
    else match Span(line[..|line| - 1], els)
      case Err(e) => Err(e)
      case Ok(s) =>
        match LengthOf(els, line[|line| - 1])
          case Err(e) => Err(e)
          case Ok(l) => Ok(s + l)
  }

  /** Proof step: one more name adds its length to the span. */
  lemma SpanAppend(line: seq<string>, els: Dict<Element>, x: string)
    requires Span(line, els).Ok? && LengthOf(els, x).Ok?
    ensures Span(line + [x], els) == Ok(Span(line, els).value + LengthOf(els, x).value)
  {
    assert (line + [x])[..|line|] == line;
  }

  /** Proof step: one more name joins either the stripped line or the drifts. */
  lemma StripAppend(line: seq<string>, x: string)
    ensures Strip(line + [x]) == Strip(line) + (if DriftLike(x) then [] else [x])
    ensures DriftsOf(line + [x]) == DriftsOf(line) + (if DriftLike(x) then [x] else [])
  {
    assert (line + [x])[..|line|] == line;
  }

  // ---------------------------------------------------------------------------
  // seq2line

  /** The variables of the `seq2line` loop: `elem_seq`, `elem_exit`,
      `drift_nbr`, and the `elements` dict it inserts drifts into. */
  datatype Scan = Scan(line: seq<string>, exit: real, drifts: nat, elements: Dict<Element>)

  /** The distance from the exit of the previous element to the entrance of
      an element of length `l` centred at `pos`. */
  function Gap(st: Scan, l: real, pos: real): real {
    pos - l / 2.0 - st.exit
  }

  /** One iteration of the `seq2line` loop. */
  function Place(st: Scan, elem: string, pos: real): (r: Result<Scan>)
    ensures LengthOf(st.elements, elem).Err? ==> r == Err(LengthOf(st.elements, elem).error)
    ensures LengthOf(st.elements, elem).Ok? ==>
              var l := LengthOf(st.elements, elem).value;
              && (r.Err? <==> Gap(st, l, pos) < -Threshold)
              && (r.Err? ==> r.error == ElementsOverlap(elem, pos))
              && (Abs(Gap(st, l, pos)) == Threshold ==> r == Ok(st))
  {
    match LengthOf(st.elements, elem)
    case Err(e) => Err(e)
    case Ok(l) =>
      var distance := Gap(st, l, pos);
      if Abs(distance) < Threshold then
        Ok(st.(line := st.line + [elem], exit := st.exit + l))
      else if distance < -Threshold then
        Err(ElementsOverlap(elem, pos))
      else if distance > Threshold then
        var drift := DriftName(st.drifts);
        Ok(Scan(st.line + [drift, elem], st.exit + distance + l, st.drifts + 1,
                st.elements.Put(drift, DriftElement(distance))))
      else
        Ok(st)
  }

  /** The rest of the `seq2line` loop from state `st`: the state where it
      stops, and the exception that stopped it, if any. */
  function ScanFrom(sequence: seq<(string, real)>, st: Scan): (Scan, Option<Error>)
    decreases |sequence|
  {
    if sequence == [] then (st, None)
    else match Place(st, sequence[0].0, sequence[0].1)
      case Err(e) => (st, Some(e))
      case Ok(next) => ScanFrom(sequence[1..], next)
  }

  function Start(elements: Dict<Element>): Scan {
    Scan([], 0.0, 0, elements)
  }

  /** `seq2line(sequence, elements)`: the final state, and the exception. */
  function Seq2LineSpec(sequence: seq<(string, real)>, elements: Dict<Element>): (Scan, Option<Error>) {
    ScanFrom(sequence, Start(elements))
  }

  /** What `seq2line` returns or raises, given where its loop stopped. */
  function Outcome(s: (Scan, Option<Error>)): Result<seq<string>> {
    if s.1.Some? then Err(s.1.value) else Ok(s.0.line)
  }

  /** `seq2line(sequence, elements)`: walks the sequence keeping the exit of
      the previous element, inserting a drift into `elements` and the line
      wherever the gap exceeds the threshold. */
  method Seq2Line(sequence: seq<(string, real)>, elements: ElementDict) returns (r: Result<seq<string>>)
    modifies elements
    ensures r == Outcome(Seq2LineSpec(sequence, old(elements.contents)))
    ensures elements.contents == Seq2LineSpec(sequence, old(elements.contents)).0.elements
  {
    ghost var spec := Seq2LineSpec(sequence, elements.contents);
    var driftNbr := 0;
    var elemSeq := [];
    var elemExit := 0.0;
    var i := 0;
    while i < |sequence|
      invariant 0 <= i <= |sequence|
      invariant ScanFrom(sequence[i..], Scan(elemSeq, elemExit, driftNbr, elements.contents)) == spec
    {
      ghost var st := Scan(elemSeq, elemExit, driftNbr, elements.contents);
      assert sequence[i..][0] == sequence[i] && sequence[i..][1..] == sequence[i + 1..];
      var (elem, pos) := sequence[i];
      var length := LengthOf(elements.contents, elem);
      if length.Err? {
        return Err(length.error);
      }
      var elemLength := length.value;
      var distance := pos - elemLength / 2.0 - elemExit;
      if Abs(distance) < Threshold {
        elemSeq := elemSeq + [elem];
        elemExit := elemExit + elemLength;
      } else if distance < -Threshold {
        return Err(ElementsOverlap(elem, pos));
      } else if distance > Threshold {
        var newDrift := DriftName(driftNbr);
        driftNbr := driftNbr + 1;
        elements.contents := elements.contents.Put(newDrift, DriftElement(distance));
        elemSeq := elemSeq + [newDrift, elem];
        elemExit := elemExit + distance + elemLength;
      }
      assert Place(st, elem, pos) == Ok(Scan(elemSeq, elemExit, driftNbr, elements.contents));
      i := i + 1;
    }
    return Ok(elemSeq);
  }

  // ---------------------------------------------------------------------------
  // What seq2line changes in `elements`

  /** The only differences between `init` and the `elements` of `st`: the
      drifts `drift_0` .. `drift_{n-1}` are set (appended, or overwritten
      in place), each a `Drift` longer than the threshold. */
  ghost predicate Grown(init: Dict<Element>, st: Scan) {
    && init.keys <= st.elements.keys
    && st.elements.items.Keys == init.items.Keys + DriftKeys(st.drifts)
    && (forall k :: k in init.items && k !in DriftKeys(st.drifts) ==> st.elements.items[k] == init.items[k])
    && (forall j :: 0 <= j < st.drifts ==> GapDrift(st.elements.items[DriftName(j)]))
  }

  predicate GapDrift(e: Element) {
    && e.kind == "Drift"
    && "length" in e.attrs.items
    && e.attrs.items["length"].Num?
    && e.attrs.items["length"].x > Threshold
  }

  /** After a new drift of positive length every drift is still a gap drift. */
  lemma DriftGapsKept(init: Dict<Element>, st: Scan, next: Scan, distance: real)
    requires Grown(init, st) && distance > Threshold
    requires next.drifts == st.drifts + 1
    requires next.elements == st.elements.Put(DriftName(st.drifts), DriftElement(distance))
    ensures forall j :: 0 <= j < next.drifts ==> GapDrift(next.elements.items[DriftName(j)])
  {
    var drift := DriftName(st.drifts);
    forall j | 0 <= j < next.drifts ensures GapDrift(next.elements.items[DriftName(j)]) {
      var name := DriftName(j);
      if j < st.drifts {
        if name == drift {
          DriftNameInjective(j, st.drifts);
        }
        var e := st.elements.items[name];
        assert GapDrift(e);
        assert next.elements.items[name] == e;
      } else {
        assert j == st.drifts && name == drift;
        var e := DriftElement(distance);
        assert e.attrs.items["length"] == Num(distance);
        assert next.elements.items[name] == e;
      }
    }
  }

  /** A new drift of positive length keeps `Grown`. */
  lemma GrownAddDrift(init: Dict<Element>, st: Scan, next: Scan, distance: real)
    requires Grown(init, st) && distance > Threshold
    requires next.drifts == st.drifts + 1
    requires next.elements == st.elements.Put(DriftName(st.drifts), DriftElement(distance))
    ensures Grown(init, next)
  {
    DriftKeysGrown(init, st, next, distance);
    DriftValuesKept(init, st, next, distance);
    DriftGapsKept(init, st, next, distance);
  }

  /** After a new drift the keys are the initial ones and one more drift. */
  lemma DriftKeysGrown(init: Dict<Element>, st: Scan, next: Scan, distance: real)
    requires Grown(init, st)
    requires next.drifts == st.drifts + 1
    requires next.elements == st.elements.Put(DriftName(st.drifts), DriftElement(distance))
    ensures init.keys <= next.elements.keys
    ensures next.elements.items.Keys == init.items.Keys + DriftKeys(next.drifts)
  {
    DriftKeysNext(st.drifts);
    assert st.elements.keys <= next.elements.keys;
    assert next.elements.items.Keys == st.elements.items.Keys + {DriftName(st.drifts)};
  }

  /** After a new drift every initial element that is no drift is unchanged. */
  lemma DriftValuesKept(init: Dict<Element>, st: Scan, next: Scan, distance: real)
    requires Grown(init, st)
    requires next.drifts == st.drifts + 1
    requires next.elements == st.elements.Put(DriftName(st.drifts), DriftElement(distance))
    ensures forall k :: k in init.items && k !in DriftKeys(next.drifts) ==> next.elements.items[k] == init.items[k]
  {
    DriftKeysNext(st.drifts);
    forall k | k in init.items && k !in DriftKeys(next.drifts) ensures next.elements.items[k] == init.items[k] {
      assert k != DriftName(st.drifts);
    }
  }

  /** Proof step: one placed element keeps `Grown`. */
  lemma PlaceGrown(init: Dict<Element>, st: Scan, elem: string, pos: real)
    requires Grown(init, st) && Place(st, elem, pos).Ok?
    ensures Grown(init, Place(st, elem, pos).value)
  {
    var next := Place(st, elem, pos).value;
    var distance := Gap(st, LengthOf(st.elements, elem).value, pos);
    if Abs(distance) >= Threshold && distance > Threshold {
      GrownAddDrift(init, st, next, distance);
    } else {
      assert next.elements == st.elements && next.drifts == st.drifts;
    }
  }

  /** Proof step: the whole loop keeps `Grown`. */
  lemma {:induction false} ScanFromGrown(init: Dict<Element>, sequence: seq<(string, real)>, st: Scan)
    requires Grown(init, st)
    ensures Grown(init, ScanFrom(sequence, st).0)
    decreases |sequence|
  {
    if sequence != [] {
      var p := Place(st, sequence[0].0, sequence[0].1);
      if p.Ok? {
        PlaceGrown(init, st, sequence[0].0, sequence[0].1);
        ScanFromGrown(init, sequence[1..], p.value);
      }
    }
  }

  /** Whether it finishes or raises, `seq2line` changes `elements` only by
      setting `drift_0`, `drift_1`, ... up to its drift count, each to a
      `Drift` longer than the threshold; the keys already there keep their
      order. */
  lemma Seq2LineChanges(sequence: seq<(string, real)>, elements: Dict<Element>)
    ensures Grown(elements, Seq2LineSpec(sequence, elements).0)
  {
    assert DriftKeys(0) == {};
    ScanFromGrown(elements, sequence, Start(elements));
  }

  // ---------------------------------------------------------------------------
  // The shape of the line

  /** No input name looks like a generated drift. */
  ghost predicate NoDriftNames(sequence: seq<(string, real)>) {
    forall i :: 0 <= i < |sequence| ==> !DriftLike(sequence[i].0)
  }

  /** The drifts of the line are `drift_0`, `drift_1`, ... in order, each
      immediately followed by a name that is not a drift. */
  ghost predicate Shape(st: Scan) {
    && DriftsOf(st.line) == Numbered(st.drifts)
    && forall i :: 0 <= i < |st.line| && DriftLike(st.line[i]) ==>
         i + 1 < |st.line| && !DriftLike(st.line[i + 1])
  }

  /** Proof step: a drift-like name of the line is among its drifts. */
  lemma {:induction false} DriftsOfHas(line: seq<string>, i: nat)
    requires i < |line| && DriftLike(line[i])
    ensures line[i] in DriftsOf(line)
    decreases |line|
  {
    if i < |line| - 1 {
      assert line[..|line| - 1][i] == line[i];
      DriftsOfHas(line[..|line| - 1], i);
    }
  }

  /** Proof step: a name of `Numbered(n)` is a drift name below `n`. */
  lemma {:induction false} NumberedHas(n: nat, x: string)
    requires x in Numbered(n)
    ensures exists j :: 0 <= j < n && x == DriftName(j)
    decreases n
  {
    if x != DriftName(n - 1) {
      NumberedHas(n - 1, x);
    }
  }

  /** The next drift name is not yet in the line. */
  lemma FreshDrift(st: Scan)
    requires Shape(st)
    ensures DriftName(st.drifts) !in st.line
  {
    if DriftName(st.drifts) in st.line {
      var i :| 0 <= i < |st.line| && st.line[i] == DriftName(st.drifts);
      DriftNameLike(st.drifts);
      DriftsOfHas(st.line, i);
      NumberedHas(st.drifts, st.line[i]);
      var j :| 0 <= j < st.drifts && st.line[i] == DriftName(j);
      DriftNameInjective(j, st.drifts);
    }
  }

  /** Proof step: one placed element keeps `Shape`. */
  lemma PlaceShape(st: Scan, elem: string, pos: real)
    requires Shape(st) && !DriftLike(elem) && Place(st, elem, pos).Ok?
    ensures Shape(Place(st, elem, pos).value)
  {
    var next := Place(st, elem, pos).value;
    if next.line == st.line + [elem] {
      assert next.line[..|next.line| - 1] == st.line;
    } else if next.line != st.line {
      var drift := DriftName(st.drifts);
      DriftNameLike(st.drifts);
      var mid := st.line + [drift];
      assert next.line == mid + [elem] && next.line[..|next.line| - 1] == mid;
      assert mid[..|mid| - 1] == st.line;
      assert DriftsOf(next.line) == DriftsOf(st.line) + [drift];
    }
  }

  /** Proof step: the whole loop keeps `Shape`. */
  lemma {:induction false} ScanFromShape(sequence: seq<(string, real)>, st: Scan)
    requires Shape(st) && NoDriftNames(sequence)
    ensures Shape(ScanFrom(sequence, st).0)
    decreases |sequence|
  {
    if sequence != [] {
      var p := Place(st, sequence[0].0, sequence[0].1);
      if p.Ok? {
        PlaceShape(st, sequence[0].0, sequence[0].1);
        ScanFromShape(sequence[1..], p.value);
      }
    }
  }

  /** The drifts in the line are `drift_0`, `drift_1`, ... in order, each
      right before an input element; this holds where the loop stops too. */
  lemma Seq2LineShape(sequence: seq<(string, real)>, elements: Dict<Element>)
    requires NoDriftNames(sequence)
    ensures Shape(Seq2LineSpec(sequence, elements).0)
  {
    ScanFromShape(sequence, Start(elements));
  }

  // ---------------------------------------------------------------------------
  // The exit position

  /** Two dicts that agree on every name of a line. */
  ghost predicate AgreeOn(line: seq<string>, a: Dict<Element>, b: Dict<Element>) {
    forall i :: 0 <= i < |line| ==>
      (line[i] in a.items <==> line[i] in b.items) && (line[i] in a.items ==> a.items[line[i]] == b.items[line[i]])
  }

  /** Proof step: the span depends only on the lookups of the line's names. */
  lemma {:induction false} SpanFrame(line: seq<string>, a: Dict<Element>, b: Dict<Element>)
    requires AgreeOn(line, a, b)
    ensures Span(line, a) == Span(line, b)
    decreases |line|
  {
    if line != [] {
      assert LengthOf(a, line[|line| - 1]) == LengthOf(b, line[|line| - 1]);
      SpanFrame(line[..|line| - 1], a, b);
    }
  }

  /** Inserting the next drift leaves the lookups of the line's names alone. */
  lemma DriftAgrees(st: Scan, d: real)
    requires Shape(st)
    ensures AgreeOn(st.line, st.elements, st.elements.Put(DriftName(st.drifts), DriftElement(d)))
  {
    FreshDrift(st);
  }

  /** Proof step: one placed element keeps the exit equal to the span. */
  lemma PlaceSpan(st: Scan, elem: string, pos: real)
    requires Shape(st) && !DriftLike(elem) && Place(st, elem, pos).Ok?
    requires Span(st.line, st.elements) == Ok(st.exit)
    ensures Span(Place(st, elem, pos).value.line, Place(st, elem, pos).value.elements) == Ok(Place(st, elem, pos).value.exit)
  {
    var l := LengthOf(st.elements, elem).value;
    var d := Gap(st, l, pos);
    if Abs(d) < Threshold {
      SpanAppend(st.line, st.elements, elem);
    } else if d > Threshold {
      var drift := DriftName(st.drifts);
      var els := st.elements.Put(drift, DriftElement(d));
      DriftAgrees(st, d);
      SpanFrame(st.line, st.elements, els);
      DriftNameLike(st.drifts);
      assert LengthOf(els, drift) == Ok(d);
      SpanAppend(st.line, els, drift);
      assert LengthOf(els, elem) == Ok(l);
      SpanAppend(st.line + [drift], els, elem);
      assert st.line + [drift, elem] == st.line + [drift] + [elem];
    }
  }

  /** Proof step: the whole loop keeps the exit equal to the span. */
  lemma {:induction false} ScanFromSpan(sequence: seq<(string, real)>, st: Scan)
    requires Shape(st) && NoDriftNames(sequence)
    requires Span(st.line, st.elements) == Ok(st.exit)
    ensures Span(ScanFrom(sequence, st).0.line, ScanFrom(sequence, st).0.elements) == Ok(ScanFrom(sequence, st).0.exit)
    decreases |sequence|
  {
    if sequence != [] {
      var p := Place(st, sequence[0].0, sequence[0].1);
      if p.Ok? {
        PlaceShape(st, sequence[0].0, sequence[0].1);
        PlaceSpan(st, sequence[0].0, sequence[0].1);
        ScanFromSpan(sequence[1..], p.value);
      }
    }
  }

  /** `elem_exit` is the summed length of the names in the line so far,
      looked up in the updated `elements`; this holds where the loop stops too. */
  lemma Seq2LineExit(sequence: seq<(string, real)>, elements: Dict<Element>)
    requires NoDriftNames(sequence)
    ensures var st := Seq2LineSpec(sequence, elements).0;
            Span(st.line, st.elements) == Ok(st.exit)
  {
    ScanFromSpan(sequence, Start(elements));
  }

  // ---------------------------------------------------------------------------
  // Elements on the threshold

  /** No element meets a gap of exactly the threshold on the way. */
  ghost predicate NoBoundaryGapFrom(sequence: seq<(string, real)>, st: Scan)
    decreases |sequence|
  {
    sequence == [] ||
    match LengthOf(st.elements, sequence[0].0)
    case Err(_) => true
    case Ok(l) =>
      && Abs(Gap(st, l, sequence[0].1)) != Threshold
      && match Place(st, sequence[0].0, sequence[0].1)
         case Err(_) => true
         case Ok(next) => NoBoundaryGapFrom(sequence[1..], next)
  }

  /** One step of a loop that runs to the end without meeting the threshold. */
  lemma CleanStep(sequence: seq<(string, real)>, st: Scan)
    requires sequence != [] && NoBoundaryGapFrom(sequence, st) && ScanFrom(sequence, st).1 == None
    ensures LengthOf(st.elements, sequence[0].0).Ok?
    ensures Abs(Gap(st, LengthOf(st.elements, sequence[0].0).value, sequence[0].1)) != Threshold
    ensures Place(st, sequence[0].0, sequence[0].1).Ok?
    ensures var next := Place(st, sequence[0].0, sequence[0].1).value;
            ScanFrom(sequence, st) == ScanFrom(sequence[1..], next) && NoBoundaryGapFrom(sequence[1..], next)
  {
  }

  /** Proof step: one placed element joins the stripped line. */
  lemma PlaceStrip(st: Scan, elem: string, pos: real)
    requires Place(st, elem, pos).Ok? && LengthOf(st.elements, elem).Ok?
    requires Abs(Gap(st, LengthOf(st.elements, elem).value, pos)) != Threshold
    requires !DriftLike(elem)
    ensures Strip(Place(st, elem, pos).value.line) == Strip(st.line) + [elem]
  {
    var l := LengthOf(st.elements, elem).value;
    if Abs(Gap(st, l, pos)) < Threshold {
      StripAppend(st.line, elem);
    } else {
      var drift := DriftName(st.drifts);
      DriftNameLike(st.drifts);
      StripAppend(st.line, drift);
      StripAppend(st.line + [drift], elem);
      assert st.line + [drift, elem] == st.line + [drift] + [elem];
    }
  }

  /** One step of `ScanFromNames`: the placed name joins the stripped line. */
  lemma NamesStep(sequence: seq<(string, real)>, st: Scan, done: seq<(string, real)>) returns (next: Scan)
    requires sequence != [] && NoDriftNames(sequence) && NoBoundaryGapFrom(sequence, st)
    requires Strip(st.line) == Names(done)
    requires ScanFrom(sequence, st).1 == None
    ensures NoDriftNames(sequence[1..]) && NoBoundaryGapFrom(sequence[1..], next)
    ensures Strip(next.line) == Names(done + [sequence[0]])
    ensures ScanFrom(sequence, st) == ScanFrom(sequence[1..], next)
  {
    CleanStep(sequence, st);
    next := Place(st, sequence[0].0, sequence[0].1).value;
    PlaceStrip(st, sequence[0].0, sequence[0].1);
    NamesAppend(done, sequence[0]);
  }

  /** Proof step: the whole loop builds the stripped line from the input names. */
  lemma {:induction false} ScanFromNames(sequence: seq<(string, real)>, st: Scan, done: seq<(string, real)>)
    requires NoDriftNames(sequence) && NoBoundaryGapFrom(sequence, st)
    requires Strip(st.line) == Names(done)
    requires ScanFrom(sequence, st).1 == None
    ensures Strip(ScanFrom(sequence, st).0.line) == Names(done + sequence)
    decreases |sequence|
  {
    if sequence == [] {
      assert done + sequence == done;
    } else {
      var next := NamesStep(sequence, st, done);
      ScanFromNames(sequence[1..], next, done + [sequence[0]]);
      ShiftHead(done, sequence);
    }
  }

  /** When no gap sits exactly on the threshold and `seq2line` finishes, the
      line is the input names in order with drifts between them. */
  lemma Seq2LineNames(sequence: seq<(string, real)>, elements: Dict<Element>)
    requires NoDriftNames(sequence) && NoBoundaryGapFrom(sequence, Start(elements))
    requires Seq2LineSpec(sequence, elements).1 == None
    ensures Strip(Seq2LineSpec(sequence, elements).0.line) == Names(sequence)
  {
    ScanFromNames(sequence, Start(elements), []);
  }

  /** An element whose gap is exactly the threshold matches none of the
      three cases: it is left out of the line and the exit does not move. */
  lemma BoundaryGapOmitted(st: Scan, elem: string, pos: real)
    requires LengthOf(st.elements, elem).Ok?
    requires Abs(Gap(st, LengthOf(st.elements, elem).value, pos)) == Threshold
    ensures ScanFrom([(elem, pos)], st) == (st, None)
  {
    assert Place(st, elem, pos) == Ok(st);
  }

  /** Two elements of the given lengths, in order `A`, `B`. */
  function TwoElements(a: real, b: real): Dict<Element> {
    Dict(["A", "B"], map["A" := Element("Quadrupole", Dict(["length"], map["length" := Num(a)])),
                         "B" := Element("Quadrupole", Dict(["length"], map["length" := Num(b)]))])
  }

  /** `A` (length 10) centred at 5 sits right at the start of the line. */
  lemma FirstPlaced(b: real)
    ensures Place(Start(TwoElements(10.0, b)), "A", 5.0) == Ok(Scan(["A"], 10.0, 0, TwoElements(10.0, b)))
  {
    assert LengthOf(TwoElements(10.0, b), "A") == Ok(10.0);
    assert Gap(Start(TwoElements(10.0, b)), 10.0, 5.0) == 0.0;
    assert [] + ["A"] == ["A"];
  }

  /** After `A`, `B` (length 4) centred at 15 leaves a gap of 3 before it. */
  lemma DriftPlaced()
    ensures var els := TwoElements(10.0, 4.0);
            Place(Scan(["A"], 10.0, 0, els), "B", 15.0)
              == Ok(Scan(["A", DriftName(0), "B"], 17.0, 1, els.Put(DriftName(0), DriftElement(3.0))))
  {
    var els := TwoElements(10.0, 4.0);
    var s1 := Scan(["A"], 10.0, 0, els);
    assert LengthOf(els, "B") == Ok(4.0);
    assert Gap(s1, 4.0, 15.0) == 3.0;
    assert s1.line + [DriftName(0), "B"] == ["A", DriftName(0), "B"];
  }

  /** `A` (length 10) centred at 5 ends at 10, `B` (length 4) centred at 15
      starts at 13: one drift of length 3 goes between them. */
  lemma GapExample()
    ensures var (st, e) := Seq2LineSpec([("A", 5.0), ("B", 15.0)], TwoElements(10.0, 4.0));
            && e == None
            && st.line == ["A", DriftName(0), "B"]
            && st.elements.items[DriftName(0)] == DriftElement(3.0)
  {
    var els := TwoElements(10.0, 4.0);
    var s1 := Scan(["A"], 10.0, 0, els);
    FirstPlaced(4.0);
    var s2 := Scan(["A", DriftName(0), "B"], 17.0, 1, els.Put(DriftName(0), DriftElement(3.0)));
    DriftPlaced();
    assert Seq2LineSpec([("A", 5.0), ("B", 15.0)], els) == ScanFrom([("B", 15.0)], s1) by {
      assert [("A", 5.0), ("B", 15.0)][1..] == [("B", 15.0)];
    }
    assert ScanFrom([("B", 15.0)], s1) == (s2, None) by {
      assert [("B", 15.0)][1..] == [];
    }
  }

  /** `A` (length 10) centred at 5 ends at 10, `B` (length 2) centred at 9
      starts at 8: the two overlap and `B` is reported. */
  lemma OverlapExample()
    ensures Seq2LineSpec([("A", 5.0), ("B", 9.0)], TwoElements(10.0, 2.0)).1 == Some(ElementsOverlap("B", 9.0))
  {
    var els := TwoElements(10.0, 2.0);
    var s1 := Scan(["A"], 10.0, 0, els);
    FirstPlaced(2.0);
    assert Place(s1, "B", 9.0) == Err(ElementsOverlap("B", 9.0)) by {
      assert LengthOf(els, "B") == Ok(2.0);
      assert Gap(s1, 2.0, 9.0) == -2.0;
    }
    assert Seq2LineSpec([("A", 5.0), ("B", 9.0)], els) == ScanFrom([("B", 9.0)], s1) by {
      assert [("A", 5.0), ("B", 9.0)][1..] == [("B", 9.0)];
    }
  }

  // ---------------------------------------------------------------------------
  // line2seq

  /** `line2seq(line, elements)`: each name that is not a `Drift` with its
      centre, the position accumulated over the names before it plus half
      its own length; also the final position. */
  function Centres(line: seq<string>, els: Dict<Element>): Result<(seq<(string, real)>, real)> {
    if line == [] then Ok(([], 0.0))
    else match Centres(line[..|line| - 1], els)
      case Err(e) => Err(e)
      case Ok(acc) =>
        var name := line[|line| - 1];
        match LengthOf(els, name)
        case Err(e) => Err(e)
        case Ok(l) => Ok(Advance(acc, name, l, els.items[name].kind == "Drift"))
  }

  /** One name of `line2seq`: a drift only moves `pos` on; any other name is
      recorded at its centre first. */
  function Advance(acc: (seq<(string, real)>, real), name: string, l: real, drift: bool): (seq<(string, real)>, real) {
    if drift then (acc.0, acc.1 + l)
    else (acc.0 + [(name, acc.1 + l / 2.0)], acc.1 + l)
  }

  /** The names of a line whose element is not a `Drift`. */
  function NonDrift(line: seq<string>, els: Dict<Element>): seq<string> {
    if line == [] then []
    else
      var name := line[|line| - 1];
      NonDrift(line[..|line| - 1], els)
        + (if name in els.items && els.items[name].kind == "Drift" then [] else [name])
  }

  /** Proof step: once `line2seq` fails on a prefix it fails the same way on
      the whole line. */
  lemma {:induction false} CentresStuck(line: seq<string>, els: Dict<Element>, n: nat)
    requires 0 < n <= |line| && Centres(line[..n], els).Err?
    ensures Centres(line, els) == Centres(line[..n], els)
    decreases |line| - n
  {
    if n < |line| {
      assert line[..n + 1][..n] == line[..n];
      CentresStuck(line, els, n + 1);
    } else {
      assert line[..n] == line;
    }
  }

  /** `line2seq(line, elements)`: walks the line accumulating `pos`, and
      leaves `elements` alone. */
  method Line2Seq(line: seq<string>, elements: Dict<Element>) returns (r: Result<seq<(string, real)>>)
    ensures r.Ok? <==> Centres(line, elements).Ok?
    ensures r.Ok? ==> r.value == Centres(line, elements).value.0
    ensures r.Err? ==> r.error == Centres(line, elements).error
  {
    var seqList := [];
    var pos := 0.0;
    var i := 0;
    while i < |line|
      invariant 0 <= i <= |line|
      invariant Centres(line[..i], elements) == Ok((seqList, pos))
    {
      assert line[..i + 1][..i] == line[..i];
      var elem := line[i];
      var length := LengthOf(elements, elem);
      if length.Err? {
        CentresStuck(line, elements, i + 1);
        return Err(length.error);
      }
      if elements.items[elem].kind == "Drift" {
        pos := pos + length.value;
      } else {
        seqList := seqList + [(elem, pos + length.value / 2.0)];
        pos := pos + length.value;
      }
      i := i + 1;
    }
    assert line[..i] == line;
    return Ok(seqList);
  }

  /** `line2seq` returns exactly the names that are not drifts, in order, and
      its final position is the summed length of the whole line. */
  lemma {:induction false} CentresNames(line: seq<string>, els: Dict<Element>)
    ensures Centres(line, els).Ok? <==> Span(line, els).Ok?
    ensures Centres(line, els).Ok? ==>
              && Names(Centres(line, els).value.0) == NonDrift(line, els)
              && Centres(line, els).value.1 == Span(line, els).value
    decreases |line|
  {
    if line != [] {
      var prefix := line[..|line| - 1];
      CentresNames(prefix, els);
      var c := Centres(line, els);
      if c.Ok? {
        var cp := Centres(prefix, els).value;
        if els.items[line[|line| - 1]].kind != "Drift" {
          assert c.value.0 == cp.0 + [(line[|line| - 1], cp.1 + LengthOf(els, line[|line| - 1]).value / 2.0)];
          assert c.value.0[..|c.value.0| - 1] == cp.0;
        }
      }
    }
  }

  /** Proof step: `line2seq` depends only on the lookups of the line's names. */
  lemma {:induction false} CentresFrame(line: seq<string>, a: Dict<Element>, b: Dict<Element>)
    requires AgreeOn(line, a, b)
    ensures Centres(line, a) == Centres(line, b)
    decreases |line|
  {
    if line != [] {
      assert LengthOf(a, line[|line| - 1]) == LengthOf(b, line[|line| - 1]);
      CentresFrame(line[..|line| - 1], a, b);
    }
  }

  // ---------------------------------------------------------------------------
  // The round trip

  /** Same names, each position within the threshold of the original. */
  ghost predicate Close(c: seq<(string, real)>, s: seq<(string, real)>) {
    |c| == |s| && forall i :: 0 <= i < |s| ==> c[i].0 == s[i].0 && Abs(c[i].1 - s[i].1) < Threshold
  }

  /** Proof step: one more close pair keeps the sequences close. */
  lemma CloseAppend(c: seq<(string, real)>, s: seq<(string, real)>, elem: string, p: real, pos: real)
    requires Close(c, s) && Abs(p - pos) < Threshold
    ensures Close(c + [(elem, p)], s + [(elem, pos)])
  {
  }

  /** No input element is itself a `Drift`. */
  ghost predicate NoDriftTyped(sequence: seq<(string, real)>, els: Dict<Element>) {
    forall i :: 0 <= i < |sequence| && sequence[i].0 in els.items ==> els.items[sequence[i].0].kind != "Drift"
  }

  /** Proof step: one more name advances `line2seq` by its length. */
  lemma CentresAppend(line: seq<string>, els: Dict<Element>, x: string)
    requires Centres(line, els).Ok? && LengthOf(els, x).Ok?
    ensures Centres(line + [x], els)
              == Ok(Advance(Centres(line, els).value, x, LengthOf(els, x).value, els.items[x].kind == "Drift"))
  {
    assert (line + [x])[..|line|] == line;
  }

  /** Where `line2seq` puts an element that `seq2line` placed at `pos`: just
      after the previous exit when no drift was inserted, else exactly `pos`. */
  function Recovered(st: Scan, l: real, pos: real): (p: real)
    requires Abs(Gap(st, l, pos)) != Threshold
    ensures Abs(p - pos) < Threshold
    ensures Gap(st, l, pos) > Threshold ==> p == pos
  {
    if Abs(Gap(st, l, pos)) < Threshold then st.exit + l / 2.0 else pos
  }

  /** After one step of `seq2line`, `line2seq` on the new line gives the
      earlier positions and then the placed element at its `Recovered`
      position: within the threshold of `pos`, and exactly `pos` after an
      inserted drift. */
  lemma PlaceCentres(st: Scan, elem: string, pos: real, c: seq<(string, real)>)
    requires Shape(st) && !DriftLike(elem) && Place(st, elem, pos).Ok?
    requires LengthOf(st.elements, elem).Ok?
    requires st.elements.items[elem].kind != "Drift"
    requires Abs(Gap(st, LengthOf(st.elements, elem).value, pos)) != Threshold
    requires Centres(st.line, st.elements) == Ok((c, st.exit))
    ensures var next := Place(st, elem, pos).value;
            var p := Recovered(st, LengthOf(st.elements, elem).value, pos);
            Centres(next.line, next.elements) == Ok((c + [(elem, p)], next.exit))
  {
    var l := LengthOf(st.elements, elem).value;
    var d := Gap(st, l, pos);
    if Abs(d) < Threshold {
      CentresAppend(st.line, st.elements, elem);
    } else {
      var drift := DriftName(st.drifts);
      var els := st.elements.Put(drift, DriftElement(d));
      DriftAgrees(st, d);
      CentresFrame(st.line, st.elements, els);
      DriftNameLike(st.drifts);
      assert LengthOf(els, drift) == Ok(d);
      CentresAppend(st.line, els, drift);
      assert LengthOf(els, elem) == Ok(l);
      CentresAppend(st.line + [drift], els, elem);
      assert st.line + [drift, elem] == st.line + [drift] + [elem];
    }
  }

  /** The elements named later in the sequence are still no drifts after a step. */
  lemma PlaceNoDriftTyped(sequence: seq<(string, real)>, st: Scan)
    requires sequence != [] && NoDriftNames(sequence) && NoDriftTyped(sequence, st.elements)
    requires Place(st, sequence[0].0, sequence[0].1).Ok?
    ensures NoDriftTyped(sequence[1..], Place(st, sequence[0].0, sequence[0].1).value.elements)
  {
    var next := Place(st, sequence[0].0, sequence[0].1).value;
    DriftNameLike(st.drifts);
    forall i | 0 <= i < |sequence[1..]| && sequence[1..][i].0 in next.elements.items
      ensures next.elements.items[sequence[1..][i].0].kind != "Drift"
    {
      assert sequence[1..][i] == sequence[i + 1];
    }
  }

  /** What the round trip needs after `seq2line` has placed `done` and is at `st`. */
  ghost predicate RoundTripState(sequence: seq<(string, real)>, st: Scan, done: seq<(string, real)>, c: seq<(string, real)>) {
    && Shape(st) && NoDriftNames(sequence) && NoDriftTyped(sequence, st.elements)
    && NoBoundaryGapFrom(sequence, st) && ScanFrom(sequence, st).1 == None
    && Centres(st.line, st.elements) == Ok((c, st.exit)) && Close(c, done)
  }

  /** Proof step: one step of the round trip keeps `RoundTripState`. */
  lemma CentresStep(sequence: seq<(string, real)>, st: Scan, done: seq<(string, real)>, c: seq<(string, real)>)
    returns (next: Scan, c': seq<(string, real)>)
    requires sequence != [] && RoundTripState(sequence, st, done, c)
    ensures RoundTripState(sequence[1..], next, done + [sequence[0]], c')
    ensures ScanFrom(sequence, st) == ScanFrom(sequence[1..], next)
  {
    var elem := sequence[0].0;
    var pos := sequence[0].1;
    CleanStep(sequence, st);
    next := Place(st, elem, pos).value;
    PlaceCentres(st, elem, pos, c);
    var p := Recovered(st, LengthOf(st.elements, elem).value, pos);
    c' := c + [(elem, p)];
    PlaceShape(st, elem, pos);
    PlaceNoDriftTyped(sequence, st);
    CloseAppend(c, done, elem, p, pos);
    assert sequence[0] == (elem, pos);
  }

  /** Proof step: moving the head of `s` onto `done`. */
  lemma ShiftHead<T>(done: seq<T>, s: seq<T>)
    requires s != []
    ensures done + [s[0]] + s[1..] == done + s
  {
    assert [s[0]] + s[1..] == s;
    assert done + [s[0]] + s[1..] == done + ([s[0]] + s[1..]);
  }

  /** `line2seq` on the line and elements of `fin` gives back `s`. */
  ghost predicate RecoversAll(fin: Scan, s: seq<(string, real)>) {
    Centres(fin.line, fin.elements).Ok? && Close(Centres(fin.line, fin.elements).value.0, s)
  }

  /** Proof step: the whole loop keeps `RoundTripState` to the end. */
  lemma {:induction false} ScanFromCentres(sequence: seq<(string, real)>, st: Scan, done: seq<(string, real)>, c: seq<(string, real)>)
    requires RoundTripState(sequence, st, done, c)
    ensures RecoversAll(ScanFrom(sequence, st).0, done + sequence)
    decreases |sequence|
  {
    if sequence == [] {
      assert done + sequence == done;
    } else {
      var next, c' := CentresStep(sequence, st, done, c);
      ScanFromCentres(sequence[1..], next, done + [sequence[0]], c');
      ShiftHead(done, sequence);
    }
  }

  /** `line2seq` after `seq2line` gives back the input names in order, each
      position within the threshold of the original, when no input element
      is a drift by name or by type and no gap sits exactly on the threshold. */
  lemma RoundTrip(sequence: seq<(string, real)>, elements: Dict<Element>)
    requires NoDriftNames(sequence) && NoDriftTyped(sequence, elements)
    requires NoBoundaryGapFrom(sequence, Start(elements))
    requires Seq2LineSpec(sequence, elements).1 == None
    ensures RecoversAll(Seq2LineSpec(sequence, elements).0, sequence)
  {
    ScanFromCentres(sequence, Start(elements), [], []);
    assert [] + sequence == sequence;
  }
}
