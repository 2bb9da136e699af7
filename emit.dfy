/** The writers of latticeconverter/convert.py: `to_elegant` and `to_madx`
    turn a LatticeJSON record into the text of a lattice file, one line for
    the title, one per element, one per lattice (in the order of
    `sort_lattices`) and the `USE` line, joined by newlines. */
module Emit {
  import opened Dicts
  import opened LatticeData
  import opened Text
  import opened Sorting

  /** A `TO_*` table: LatticeJSON name to foreign name. */
  type NameTable = map<string, string>

  /** The two foreign formats; they differ only in the line templates. */
  datatype Format = Elegant | Madx

  function TitleLine(f: Format, title: string): string {
    match f
    case Elegant => "! TITLE: " + title
    case Madx => "TITLE, \"" + title + "\";"
  }

  /** MAD-X ends every statement with a semicolon, elegant does not. */
  function Terminated(f: Format, line: string): string {
    match f
    case Elegant => line
    case Madx => line + ";"
  }

  /** `"{}: {}, {}"` (elegant) and `"{}: {}, {};"` (MAD-X). */
  function ElementLine(f: Format, name: string, kind: string, attrs: string): string {
    Terminated(f, name + ": " + kind + ", " + attrs)
  }

  /** `"{}: line=({})"` (elegant) and `"{}: line=({});"` (MAD-X). */
  function LatticeLine(f: Format, name: string, children: seq<string>): string {
    Terminated(f, name + ": line=(" + Join(children, ", ") + ")")
  }

  function UseLine(f: Format, root: string): string {
    match f
    case Elegant => "USE, " + root + "\n"
    case Madx => "USE, SEQUENCE=" + root + ";\n"
  }

  /** The position of the first name of `ks` that the table does not know. */
  function FirstUnmapped(ks: seq<string>, to: NameTable): (i: nat)
    requires !(forall k :: k in ks ==> k in to)
    ensures i < |ks| && ks[i] !in to
    ensures forall j :: 0 <= j < i ==> ks[j] in to
  {
    if ks[0] !in to then 0 else 1 + FirstUnmapped(ks[1..], to)
  }

  /** `f"{TO[k]}={v}"` for each attribute in order; `str(v)` is the parameter
      `show`. The generator stops at the first name without a table entry
      with `KeyError`. */
  function AttrParts(ks: seq<string>, items: map<string, Value>, to: NameTable, show: Value -> string): Result<seq<string>>
    requires forall k :: k in ks ==> k in items
  {
    if ks == [] then Ok([])
    else if ks[0] !in to then Err(KeyError(ks[0]))
    else match AttrParts(ks[1..], items, to, show)
      case Err(e) => Err(e)
      case Ok(rest) => Ok([to[ks[0]] + "=" + show(items[ks[0]])] + rest)
  }

  /** The attributes render exactly when every name has a table entry, one
      `name=value` part per attribute in order; otherwise the first name
      without an entry is the `KeyError`. */
  lemma {:induction false} AttrPartsSpec(ks: seq<string>, items: map<string, Value>, to: NameTable, show: Value -> string)
    requires forall k :: k in ks ==> k in items
    ensures AttrParts(ks, items, to, show).Ok? <==> forall k :: k in ks ==> k in to
    ensures AttrParts(ks, items, to, show).Err? ==> AttrParts(ks, items, to, show).error == KeyError(ks[FirstUnmapped(ks, to)])
    ensures AttrParts(ks, items, to, show).Ok? ==>
              var parts := AttrParts(ks, items, to, show).value;
              |parts| == |ks| && forall i :: 0 <= i < |ks| ==> parts[i] == to[ks[i]] + "=" + show(items[ks[i]])
  {
    if ks != [] && ks[0] in to {
      AttrPartsSpec(ks[1..], items, to, show);
      if !(forall k :: k in ks ==> k in to) {
        assert !(forall k :: k in ks[1..] ==> k in to);
        assert FirstUnmapped(ks, to) == 1 + FirstUnmapped(ks[1..], to);
      }
    }
  }

  /** The type and every attribute name of `e` have a table entry. */
  ghost predicate Renderable(e: Element, to: NameTable) {
    e.kind in to && forall k :: k in e.attrs.items ==> k in to
  }

  /** The line of one element, or the exception. */
  function ElementText(f: Format, name: string, e: Element, to: NameTable, show: Value -> string): Result<string>
    requires e.attrs.Valid()
  {
    match AttrParts(e.attrs.keys, e.attrs.items, to, show)
    case Err(err) => Err(err)
    case Ok(parts) =>
      if e.kind !in to then Err(KeyError(e.kind))
      else Ok(ElementLine(f, name, to[e.kind], Join(parts, ", ")))
  }

  /** The attributes are rendered before the type is looked up, so the
      first attribute name without an entry is reported before an unknown
      type. */
  lemma ElementTextSpec(f: Format, name: string, e: Element, to: NameTable, show: Value -> string)
    requires e.attrs.Valid()
    ensures ElementText(f, name, e, to, show).Ok? <==> Renderable(e, to)
    ensures !(forall k :: k in e.attrs.items ==> k in to) ==>
              ElementText(f, name, e, to, show) == Err(KeyError(e.attrs.keys[FirstUnmapped(e.attrs.keys, to)]))
    ensures (forall k :: k in e.attrs.items ==> k in to) && e.kind !in to ==>
              ElementText(f, name, e, to, show) == Err(KeyError(e.kind))
  {
    AttrPartsSpec(e.attrs.keys, e.attrs.items, to, show);
  }

  /** The element lines of the first `n` names of `ks`, up to the first
      failing element. */
  function ElementLines(f: Format, ks: seq<string>, n: nat, els: map<string, Element>, to: NameTable, show: Value -> string): Result<seq<string>>
    requires n <= |ks| && forall k :: k in ks ==> k in els && els[k].attrs.Valid()
  {
    if n == 0 then Ok([])
    else
      match ElementLines(f, ks, n - 1, els, to, show)
      case Err(err) => Err(err)
      case Ok(lines) =>
        match ElementText(f, ks[n - 1], els[ks[n - 1]], to, show)
        case Err(err) => Err(err)
        case Ok(line) => Ok(lines + [line])
  }

  /** The lattice lines, in the given order. */
  function LatticeLines(f: Format, order: seq<string>, L: Lattices): seq<string>
    requires forall n :: n in order ==> n in L
  {
    seq(|order|, i requires 0 <= i < |order| => LatticeLine(f, order[i], L[order[i]]))
  }

  /** Proof step: the lattice lines of one more name add that name's line. */
  lemma LatticeLinesAppend(f: Format, order: seq<string>, L: Lattices, j: nat)
    requires j < |order| && forall n :: n in order ==> n in L
    ensures LatticeLines(f, order[..j + 1], L) == LatticeLines(f, order[..j], L) + [LatticeLine(f, order[j], L[order[j]])]
  {
    assert forall n :: n in order[..j + 1] ==> n in order;
    assert forall n :: n in order[..j] ==> n in order;
    var a := LatticeLines(f, order[..j + 1], L);
    var b := LatticeLines(f, order[..j], L) + [LatticeLine(f, order[j], L[order[j]])];
    assert |a| == |b|;
    forall i | 0 <= i < |a| ensures a[i] == b[i] {
      assert order[..j + 1][i] == order[i];
    }
  }

  /** Proof step: every name `sort_lattices` emits is a lattice of the record. */
  lemma OrderInLattices(L: Lattices, root: string)
    requires root in L
    ensures forall n :: n in SortedOrder(L, root) ==> n in L
  {
  }

  /** The `strings` list of the writer, or the exception: the element lines
      come first, so their errors come before a root that is not a lattice. */
  function Document(f: Format, lj: LatticeJson, to: NameTable, show: Value -> string): Result<seq<string>>
    requires WellFormed(lj.elements)
  {
    match ElementLines(f, lj.elements.keys, |lj.elements.keys|, lj.elements.items, to, show)
    case Err(err) => Err(err)
    case Ok(elementLines) =>
      if lj.root !in lj.lattices.items then Err(KeyError(lj.root))
      else
        var L := lj.lattices.items;
        OrderInLattices(L, lj.root);
        Ok([TitleLine(f, lj.title)] + elementLines + LatticeLines(f, SortedOrder(L, lj.root), L) + [UseLine(f, lj.root)])
  }

  // ---------------------------------------------------------------------------
  // Properties of the document

  /** Every element and attribute name has an entry in the table. */
  ghost predicate Mapped(elements: Dict<Element>, to: NameTable) {
    forall n :: n in elements.items ==> Renderable(elements.items[n], to)
  }

  /** The element lines exist exactly when every element's line does. */
  lemma {:induction false} ElementLinesOk(f: Format, ks: seq<string>, n: nat, els: map<string, Element>, to: NameTable, show: Value -> string)
    requires n <= |ks| && forall k :: k in ks ==> k in els && els[k].attrs.Valid()
    ensures ElementLines(f, ks, n, els, to, show).Ok? <==> forall j :: 0 <= j < n ==> ElementText(f, ks[j], els[ks[j]], to, show).Ok?
  {
    if n != 0 {
      ElementLinesOk(f, ks, n - 1, els, to, show);
      var prev := ElementLines(f, ks, n - 1, els, to, show);
      var line := ElementText(f, ks[n - 1], els[ks[n - 1]], to, show);
      if prev.Err? {
        assert ElementLines(f, ks, n, els, to, show) == prev;
      } else if line.Err? {
        assert ElementLines(f, ks, n, els, to, show) == Err(line.error);
      } else {
        assert ElementLines(f, ks, n, els, to, show) == Ok(prev.value + [line.value]);
      }
    }
  }

  /** The element lines, when they exist, are the elements' lines in order. */
  lemma {:induction false} ElementLinesValues(f: Format, ks: seq<string>, n: nat, els: map<string, Element>, to: NameTable, show: Value -> string)
    requires n <= |ks| && forall k :: k in ks ==> k in els && els[k].attrs.Valid()
    requires ElementLines(f, ks, n, els, to, show).Ok?
    ensures |ElementLines(f, ks, n, els, to, show).value| == n
    ensures forall j :: 0 <= j < n ==> ElementText(f, ks[j], els[ks[j]], to, show) == Ok(ElementLines(f, ks, n, els, to, show).value[j])
  {
    if n != 0 {
      var prev := ElementLines(f, ks, n - 1, els, to, show);
      assert prev.Ok?;
      ElementLinesValues(f, ks, n - 1, els, to, show);
      var line := ElementText(f, ks[n - 1], els[ks[n - 1]], to, show);
      assert ElementLines(f, ks, n, els, to, show).value == prev.value + [line.value];
    }
  }

  /** The first element whose line fails decides the exception. */
  lemma {:induction false} ElementLinesFirstError(f: Format, ks: seq<string>, n: nat, els: map<string, Element>, to: NameTable, show: Value -> string, i: nat)
    requires n <= |ks| && forall k :: k in ks ==> k in els && els[k].attrs.Valid()
    requires i < n && ElementText(f, ks[i], els[ks[i]], to, show).Err?
    requires forall j :: 0 <= j < i ==> ElementText(f, ks[j], els[ks[j]], to, show).Ok?
    ensures ElementLines(f, ks, n, els, to, show) == Err(ElementText(f, ks[i], els[ks[i]], to, show).error)
  {
    if i < n - 1 {
      ElementLinesFirstError(f, ks, n - 1, els, to, show, i);
    } else {
      ElementLinesOk(f, ks, n - 1, els, to, show);
    }
  }

  /** A document is written exactly when every element type and attribute
      name has a table entry and the root is a lattice. */
  lemma DocumentOk(f: Format, lj: LatticeJson, to: NameTable, show: Value -> string)
    requires WellFormed(lj.elements)
    ensures Document(f, lj, to, show).Ok? <==> Mapped(lj.elements, to) && lj.root in lj.lattices.items
    ensures Document(f, lj, to, show).Err? && Mapped(lj.elements, to) ==> Document(f, lj, to, show).error == KeyError(lj.root)
  {
    var ks := lj.elements.keys;
    var els := lj.elements.items;
    ElementLinesOk(f, ks, |ks|, els, to, show);
    if Mapped(lj.elements, to) {
      forall j | 0 <= j < |ks| ensures ElementText(f, ks[j], els[ks[j]], to, show).Ok? {
        assert ks[j] in els;
        ElementTextSpec(f, ks[j], els[ks[j]], to, show);
      }
    }
    if forall j :: 0 <= j < |ks| ==> ElementText(f, ks[j], els[ks[j]], to, show).Ok? {
      forall n | n in els ensures Renderable(els[n], to) {
        var j :| 0 <= j < |ks| && ks[j] == n;
        ElementTextSpec(f, ks[j], els[ks[j]], to, show);
      }
    }
  }

  /** When element `i` is the first whose line fails, its exception is the
      writer's. */
  lemma DocumentFirstError(f: Format, lj: LatticeJson, to: NameTable, show: Value -> string, i: nat)
    requires WellFormed(lj.elements)
    requires i < |lj.elements.keys|
    requires ElementText(f, lj.elements.keys[i], lj.elements.items[lj.elements.keys[i]], to, show).Err?
    requires forall j :: 0 <= j < i ==> ElementText(f, lj.elements.keys[j], lj.elements.items[lj.elements.keys[j]], to, show).Ok?
    ensures Document(f, lj, to, show) == Err(ElementText(f, lj.elements.keys[i], lj.elements.items[lj.elements.keys[i]], to, show).error)
  {
    ElementLinesFirstError(f, lj.elements.keys, |lj.elements.keys|, lj.elements.items, to, show, i);
  }

  /** The layout of a written document: the title line, one line per element
      in the element order, one line per lattice in dependency order from the
      root, and the `USE` line. */
  lemma DocumentLayout(f: Format, lj: LatticeJson, to: NameTable, show: Value -> string)
    requires WellFormed(lj.elements)
    requires Document(f, lj, to, show).Ok?
    ensures lj.root in lj.lattices.items
    ensures forall n :: n in SortedOrder(lj.lattices.items, lj.root) ==> n in lj.lattices.items
    ensures var lines := Document(f, lj, to, show).value;
            var ks := lj.elements.keys;
            var order := SortedOrder(lj.lattices.items, lj.root);
            && |lines| == 2 + |ks| + |order|
            && lines[0] == TitleLine(f, lj.title)
            && (forall i :: 0 <= i < |ks| ==> Ok(lines[1 + i]) == ElementText(f, ks[i], lj.elements.items[ks[i]], to, show))
            && (forall j :: 0 <= j < |order| ==> lines[1 + |ks| + j] == LatticeLine(f, order[j], lj.lattices.items[order[j]]))
            && lines[|lines| - 1] == UseLine(f, lj.root)
  {
    var ks := lj.elements.keys;
    var L := lj.lattices.items;
    var elementLines := ElementLines(f, ks, |ks|, lj.elements.items, to, show);
    assert elementLines.Ok?;
    ElementLinesValues(f, ks, |ks|, lj.elements.items, to, show);
    OrderInLattices(L, lj.root);
    var order := SortedOrder(L, lj.root);
    var lines := Document(f, lj, to, show).value;
    assert lines == [TitleLine(f, lj.title)] + elementLines.value + LatticeLines(f, order, L) + [UseLine(f, lj.root)];
  }

  // ---------------------------------------------------------------------------
  // The writers

  /** Proof step: the element lines stop at the first element whose line fails. */
  lemma ElementLinesStopAt(f: Format, ks: seq<string>, els: map<string, Element>, to: NameTable, show: Value -> string, i: nat)
    requires forall k :: k in ks ==> k in els && els[k].attrs.Valid()
    requires i < |ks| && ElementLines(f, ks, i, els, to, show).Ok?
    requires ElementText(f, ks[i], els[ks[i]], to, show).Err?
    ensures ElementLines(f, ks, |ks|, els, to, show) == Err(ElementText(f, ks[i], els[ks[i]], to, show).error)
  {
    ElementLinesOk(f, ks, i, els, to, show);
    ElementLinesFirstError(f, ks, |ks|, els, to, show, i);
  }

  /** Proof step: one more element whose line succeeds adds that line. */
  lemma ElementLinesNext(f: Format, ks: seq<string>, els: map<string, Element>, to: NameTable, show: Value -> string, i: nat)
    requires forall k :: k in ks ==> k in els && els[k].attrs.Valid()
    requires i < |ks| && ElementLines(f, ks, i, els, to, show).Ok?
    requires ElementText(f, ks[i], els[ks[i]], to, show).Ok?
    ensures ElementLines(f, ks, i + 1, els, to, show)
            == Ok(ElementLines(f, ks, i, els, to, show).value + [ElementText(f, ks[i], els[ks[i]], to, show).value])
  {
  }

  /** The element loop of the writers: one line per element in order, up
      to the first element whose line fails. */
  method WriteElements(f: Format, lj: LatticeJson, to: NameTable, show: Value -> string)
    returns (r: Result<seq<string>>)
    requires WellFormed(lj.elements)
    ensures r == ElementLines(f, lj.elements.keys, |lj.elements.keys|, lj.elements.items, to, show)
  {
    var strings := [];
    var names := lj.elements.keys;
    var els := lj.elements.items;
    WellFormedKeys(lj.elements);
    var i := 0;
    while i < |names|
      invariant 0 <= i <= |names|
      invariant ElementLines(f, names, i, els, to, show) == Ok(strings)
    {
      var line := ElementText(f, names[i], els[names[i]], to, show);
      if line.Err? {
        ElementLinesStopAt(f, names, els, to, show, i);
        return Err(line.error);
      }
      ElementLinesNext(f, names, els, to, show, i);
      strings := strings + [line.value];
      i := i + 1;
    }
    r := Ok(strings);
  }

  /** The body shared by `to_elegant` and `to_madx`: build the list of lines
      step by step, then join it with newlines. The warnings are those of
      `sort_lattices` about lattices the root does not reach. */
  method Write(f: Format, lj: LatticeJson, to: NameTable, show: Value -> string)
    returns (r: Result<string>, warnings: seq<Warning>)
    requires WellFormed(lj.elements)
    ensures r.Err? <==> Document(f, lj, to, show).Err?
    ensures r.Err? ==> r.error == Document(f, lj, to, show).error && warnings == []
    ensures r.Ok? ==> r.value == Join(Document(f, lj, to, show).value, "\n")
    ensures r.Ok? ==> DiscardsExactly(warnings, lj.lattices.items.Keys - Elems(SortedOrder(lj.lattices.items, lj.root)))
  {
    var elementLines := WriteElements(f, lj, to, show);
    if elementLines.Err? {
      return Err(elementLines.error), [];
    }
    var strings := [TitleLine(f, lj.title)] + elementLines.value;
    var sorted;
    sorted, warnings := SortLattices(lj, None, false);
    if sorted.Err? {
      return Err(sorted.error), [];
    }
    var order := sorted.value.keys;
    ghost var head := strings;
    var j := 0;
    while j < |order|
      invariant 0 <= j <= |order|
      invariant strings == head + LatticeLines(f, order[..j], lj.lattices.items)
    {
      assert order[j] in sorted.value.items;
      LatticeLinesAppend(f, order, lj.lattices.items, j);
      strings := strings + [LatticeLine(f, order[j], sorted.value.items[order[j]])];
      j := j + 1;
    }
    assert order[..j] == order;
    strings := strings + [UseLine(f, lj.root)];
    r := Ok(Join(strings, "\n"));
  }

  /** `to_elegant(latticejson)`. */
  method ToElegant(lj: LatticeJson, toElegant: NameTable, show: Value -> string)
    returns (r: Result<string>, warnings: seq<Warning>)
    requires WellFormed(lj.elements)
    ensures r.Err? <==> !Mapped(lj.elements, toElegant) || lj.root !in lj.lattices.items
    ensures r.Ok? ==> Document(Elegant, lj, toElegant, show).Ok? && r.value == Join(Document(Elegant, lj, toElegant, show).value, "\n")
  {
    DocumentOk(Elegant, lj, toElegant, show);
    r, warnings := Write(Elegant, lj, toElegant, show);
  }

  /** `to_madx(latticejson)`. */
  method ToMadx(lj: LatticeJson, toMadx: NameTable, show: Value -> string)
    returns (r: Result<string>, warnings: seq<Warning>)
    requires WellFormed(lj.elements)
    ensures r.Err? <==> !Mapped(lj.elements, toMadx) || lj.root !in lj.lattices.items
    ensures r.Ok? ==> Document(Madx, lj, toMadx, show).Ok? && r.value == Join(Document(Madx, lj, toMadx, show).value, "\n")
  {
    DocumentOk(Madx, lj, toMadx, show);
    r, warnings := Write(Madx, lj, toMadx, show);
  }
}
